/**
 The trace lane of `consumer` in its own form: an object whose deques are moved and popped in place, with
 the loops of `run_traces`. What other threads do while the mutex is free enters as a script; Protocol
 has all interleavings.
 */
module TraceConsumer {
  import opened Common
  import opened Traces
  import opened Statements
  import opened SqlDatabase
  import Model = ActionsTable

  /** What happens while the lane mutex is free: entries pushed by producers, and whether exit is set. */
  datatype Interlude = Interlude(pushed: seq<TransactionTrace>, exit: bool)

  function Arrivals(script: seq<Interlude>): seq<TransactionTrace> {
    if script == [] then [] else Arrivals(script[..|script| - 1]) + script[|script| - 1].pushed
  }

  /** What other threads do while a producer backs off from a full queue: other producers push, exit is set, the
      consumer takes the queue or consumes an entry of its batch. */
  datatype Happening = Pushes(traces: seq<TransactionTrace>) | Exits | Takes | Consumes

  function PushedIn(meanwhile: seq<Happening>): seq<TransactionTrace> {
    if meanwhile == [] then []
    else
      var last := meanwhile[|meanwhile| - 1];
      PushedIn(meanwhile[..|meanwhile| - 1]) + if last.Pushes? then last.traces else []
  }

  /** The tables after consuming traces one after the other; an exception ends one trace, not the rest. */
  function ConsumeAll(env: Environment, s: Store, k: nat, n: nat, ts: seq<TransactionTrace>): Ran
    decreases |ts|
  {
    if ts == [] then Ran(s, k, false)
    else
      var ran := ConsumeOne(env, s, k, n, ts[0]);
      ConsumeAll(env, ran.store, ran.begun, n + 1, ts[1..])
  }

  lemma {:induction false} ConsumeConcat(env: Environment, s: Store, k: nat, n: nat,
                                         xs: seq<TransactionTrace>, ys: seq<TransactionTrace>)
    ensures var mid := ConsumeAll(env, s, k, n, xs);
            ConsumeAll(env, s, k, n, xs + ys) == ConsumeAll(env, mid.store, mid.begun, n + |xs|, ys)
    decreases |xs|
  {
    hide ConsumeOne;
    if xs == [] {
      assert xs + ys == ys;
    } else {
      HeadAndTail(xs, ys);
      var ran := ConsumeOne(env, s, k, n, xs[0]);
      ConsumeConcat(env, ran.store, ran.begun, n + 1, xs[1..], ys);
    }
  }

  lemma {:induction false} ConsumeNeverThrows(env: Environment, s: Store, k: nat, n: nat, ts: seq<TransactionTrace>)
    ensures !ConsumeAll(env, s, k, n, ts).threw
    decreases |ts|
  {
    hide ConsumeOne;
    if ts != [] {
      var ran := ConsumeOne(env, s, k, n, ts[0]);
      ConsumeNeverThrows(env, ran.store, ran.begun, n + 1, ts[1..]);
    }
  }

  lemma ConsumeSingle(env: Environment, s: Store, k: nat, n: nat, t: TransactionTrace)
    ensures var ran := ConsumeOne(env, s, k, n, t);
            ConsumeAll(env, s, k, n, [t]) == Ran(ran.store, ran.begun, false)
  {
    hide ConsumeOne;
    var ran := ConsumeOne(env, s, k, n, t);
    assert [t][1..] == [];
    assert ConsumeAll(env, ran.store, ran.begun, n + 1, []) == Ran(ran.store, ran.begun, false);
  }

  lemma FrontMoves<T>(before: seq<T>, all: seq<T>, i: nat)
    requires i < |all|
    ensures before + all[..i] + [all[i]] == before + all[..i + 1]
    ensures all[i..] != [] && all[i..][0] == all[i] && all[i..][1..] == all[i + 1..]
  {
  }

  class TraceLane {
    const db: Database
    const queueSize: nat
    var queue: seq<TransactionTrace>
    var processQueue: seq<TransactionTrace>
    var exit: bool
    ghost var pushed: seq<TransactionTrace>
    ghost var consumed: seq<TransactionTrace>

    ghost predicate Valid()
      reads this
    {
      pushed == consumed + processQueue + queue
    }

    constructor (db: Database, queueSize: nat)
      ensures Valid() && this.db == db && this.queueSize == queueSize
      ensures pushed == [] && consumed == [] && processQueue == [] && queue == [] && !exit
    {
      this.db, this.queueSize := db, queueSize;
      queue, processQueue, exit := [], [], false;
      pushed, consumed := [], [];
    }

    /** The mutex is released for a while. */
    method MutexFree(meanwhile: Interlude)
      requires Valid()
      modifies this`queue, this`pushed, this`exit
      ensures Valid()
      ensures queue == old(queue) + meanwhile.pushed && pushed == old(pushed) + meanwhile.pushed
      ensures exit == (old(exit) || meanwhile.exit)
    {
      queue := queue + meanwhile.pushed;
      pushed := pushed + meanwhile.pushed;
      exit := exit || meanwhile.exit;
    }

    /** Moves the shared deque into the process deque; only an empty process deque may be overwritten. */
    method TakeBatch() returns (size: nat)
      requires Valid() && processQueue == []
      modifies this`queue, this`processQueue
      ensures Valid()
      ensures size == |old(queue)| && processQueue == old(queue) && queue == []
    {
      size := |queue|;
      if size > 0 {
        processQueue := queue;
        queue := [];
      }
    }

    /** The tables, begun from `s0` with `k0` actions recorded and `n0` sessions leased, have consumed exactly
        `recent`. */
    ghost predicate HasConsumed(s0: Store, k0: nat, n0: nat, recent: seq<TransactionTrace>)
      reads db
    {
      ConsumeAll(db.env, s0, k0, n0, recent) == Ran(db.View(), db.begun, false) && db.leases == n0 + |recent|
    }

    /** Consumes the front entry and pops it, whatever the database throws. */
    method ConsumeFront(ghost s0: Store, ghost k0: nat, ghost n0: nat, ghost recent: seq<TransactionTrace>)
      requires Valid() && processQueue != [] && HasConsumed(s0, k0, n0, recent)
      modifies this`processQueue, this`consumed, db
      ensures Valid() && processQueue == old(processQueue)[1..] && consumed == old(consumed) + [old(processQueue)[0]]
      ensures HasConsumed(s0, k0, n0, recent + [old(processQueue)[0]])
    {
      hide ConsumeAll, ConsumeOne;
      var front := processQueue[0];
      ghost var rest := processQueue[1..];
      assert processQueue == [front] + rest;
      assert consumed + processQueue + queue == consumed + [front] + rest + queue;
      ConsumeConcat(db.env, s0, k0, n0, recent, [front]);
      ConsumeSingle(db.env, db.View(), db.begun, db.leases, front);
      var _ := db.ConsumeTransactionTrace(front);
      processQueue := processQueue[1..];
      consumed := consumed + [front];
    }

    /** Consumes and pops until the batch is empty. */
    method DrainBatch(ghost s0: Store, ghost k0: nat, ghost n0: nat, ghost recent: seq<TransactionTrace>)
      requires Valid() && HasConsumed(s0, k0, n0, recent)
      modifies this`processQueue, this`consumed, db
      ensures Valid() && processQueue == [] && consumed == old(consumed) + old(processQueue)
      ensures HasConsumed(s0, k0, n0, recent + old(processQueue))
    {
      hide HasConsumed, ConsumeAll;
      ghost var all, before := processQueue, consumed;
      ghost var i := 0;
      assert recent + all[..0] == recent;
      while processQueue != []
        invariant Valid() && i <= |all| && processQueue == all[i..] && consumed == before + all[..i]
        invariant HasConsumed(s0, k0, n0, recent + all[..i])
        decreases |processQueue|
      {
        FrontMoves(before, all, i);
        FrontMoves(recent, all, i);
        ConsumeFront(s0, k0, n0, recent + all[..i]);
        i := i + 1;
      }
      assert all[..i] == all;
    }

    /** `queue`: a full queue only delays the append; `meanwhile` is what other threads do then. The entry goes
        behind all that was pushed before it, wherever that is by then; `recent` is what was consumed. */
    method Push(t: TransactionTrace, meanwhile: seq<Happening>) returns (ghost recent: seq<TransactionTrace>)
      requires Valid()
      modifies this, db
      ensures Valid()
      ensures pushed == old(pushed) + (if |old(queue)| > queueSize then PushedIn(meanwhile) else []) + [t]
      ensures queue != [] && queue[|queue| - 1] == t
      ensures consumed == old(consumed) + recent && HasConsumed(old(db.View()), old(db.begun), old(db.leases), recent)
      ensures exit == (old(exit) || (|old(queue)| > queueSize && Exits in meanwhile))
      ensures |old(queue)| <= queueSize ==>
                queue == old(queue) + [t] && processQueue == old(processQueue) && recent == []
    {
      hide PushedIn, ConsumeOne;
      recent := [];
      assert pushed + [] == pushed && consumed + [] == consumed;
      if |queue| > queueSize {
        recent := BackOff(meanwhile);
      }
      assert consumed + processQueue + (queue + [t]) == consumed + processQueue + queue + [t];
      queue := queue + [t];
      pushed := pushed + [t];
    }

    /** One thing another thread does. */
    method Happen(h: Happening, ghost s0: Store, ghost k0: nat, ghost n0: nat, ghost recent: seq<TransactionTrace>)
        returns (ghost more: seq<TransactionTrace>)
      requires Valid() && HasConsumed(s0, k0, n0, recent)
      modifies this, db
      ensures Valid() && pushed == old(pushed) + if h.Pushes? then h.traces else []
      ensures exit == (old(exit) || h.Exits?)
      ensures consumed == old(consumed) + more && HasConsumed(s0, k0, n0, recent + more)
    {
      hide ConsumeAll;
      more := [];
      assert recent + [] == recent && consumed + [] == consumed && pushed + [] == pushed;
      match h {
        case Pushes(traces) => MutexFree(Interlude(traces, false));
        case Exits => MutexFree(Interlude([], true));
        case Takes =>
          if processQueue == [] {
            var _ := TakeBatch();
          }
        case Consumes =>
          if processQueue != [] {
            more := [processQueue[0]];
            ConsumeFront(s0, k0, n0, recent);
          }
      }
    }

    /** The mutex is free for a while: `meanwhile` happens. */
    method BackOff(meanwhile: seq<Happening>) returns (ghost recent: seq<TransactionTrace>)
      requires Valid()
      modifies this, db
      ensures Valid() && pushed == old(pushed) + PushedIn(meanwhile)
      ensures exit == (old(exit) || Exits in meanwhile)
      ensures consumed == old(consumed) + recent && HasConsumed(old(db.View()), old(db.begun), old(db.leases), recent)
    {
      hide ConsumeOne;
      recent := [];
      ghost var start, before, s0, k0, n0 := pushed, consumed, db.View(), db.begun, db.leases;
      for i := 0 to |meanwhile|
        invariant Valid() && pushed == start + PushedIn(meanwhile[..i])
        invariant exit == (old(exit) || Exits in meanwhile[..i])
        invariant consumed == before + recent && HasConsumed(s0, k0, n0, recent)
      {
        assert meanwhile[..i + 1][..i] == meanwhile[..i] && meanwhile[..i + 1][i] == meanwhile[i];
        ghost var more := Happen(meanwhile[i], s0, k0, n0, recent);
        Associates(before, recent, more);
        Associates(start, PushedIn(meanwhile[..i]), if meanwhile[i].Pushes? then meanwhile[i].traces else []);
        recent := recent + more;
      }
      assert meanwhile[..|meanwhile|] == meanwhile;
    }

    /** Everything pushed is what had been pushed at the start and what the script has pushed since. */
    ghost predicate Follows(start: seq<TransactionTrace>, script: seq<Interlude>, used: nat)
      reads this
    {
      Valid() && used <= |script| && pushed == start + Arrivals(script[..used])
    }

    /** The next thing the script says happens, if it says more. */
    method FreeOnce(script: seq<Interlude>, at: nat, ghost start: seq<TransactionTrace>) returns (used: nat)
      requires Follows(start, script, at)
      modifies this`queue, this`pushed, this`exit
      ensures Follows(start, script, used) && used == if at < |script| then at + 1 else at
      ensures used == at ==> queue == old(queue) && exit == old(exit)
    {
      used := at;
      if at < |script| {
        assert script[..at + 1][..at] == script[..at];
        assert pushed + script[at].pushed == start + (Arrivals(script[..at]) + script[at].pushed);
        MutexFree(script[at]);
        used := at + 1;
      }
    }

    /** The inner loop: waits while the queue is empty and exit is not set. */
    method Wait(script: seq<Interlude>, at: nat, ghost start: seq<TransactionTrace>) returns (used: nat)
      requires Follows(start, script, at)
      modifies this`queue, this`pushed, this`exit
      ensures Follows(start, script, used) && at <= used
      ensures queue == [] && !exit ==> used == |script|
      ensures used == at ==> queue == old(queue)
    {
      used := at;
      while queue == [] && !exit
        invariant Follows(start, script, used) && at <= used
        invariant used == at ==> queue == old(queue)
        decreases |script| - used
      {
        if used == |script| {
          return;
        }
        used := FreeOnce(script, used, start);
      }
    }

    /** One batch: taken under the mutex, consumed without it. */
    method Batch(ghost s0: Store, ghost k0: nat, ghost n0: nat, ghost recent: seq<TransactionTrace>) returns (size: nat)
      requires Valid() && processQueue == [] && HasConsumed(s0, k0, n0, recent)
      modifies this`queue, this`processQueue, this`consumed, db
      ensures Valid() && processQueue == [] && queue == [] && size == |old(queue)|
      ensures consumed == old(consumed) + old(queue)
      ensures HasConsumed(s0, k0, n0, recent + old(queue))
    {
      hide ConsumeAll;
      size := TakeBatch();
      DrainBatch(s0, k0, n0, recent);
    }

    /** One turn of the outer loop; `asleep` when it is left waiting for a script that has ended. */
    method Round(script: seq<Interlude>, at: nat, ghost start: seq<TransactionTrace>,
                 ghost s0: Store, ghost k0: nat, ghost n0: nat, ghost recent: seq<TransactionTrace>)
        returns (used: nat, asleep: bool, ghost batch: seq<TransactionTrace>)
      requires Follows(start, script, at) && processQueue == [] && HasConsumed(s0, k0, n0, recent)
      modifies this, db
      ensures Follows(start, script, used) && processQueue == [] && at <= used
      ensures consumed == old(consumed) + batch && HasConsumed(s0, k0, n0, recent + batch)
      ensures asleep ==> queue == [] && used == |script|
      ensures !asleep && used == at ==> queue == [] && (old(queue) != [] || exit)
    {
      hide ConsumeAll;
      used := Wait(script, at, start);
      asleep := queue == [] && !exit;
      batch := queue;
      if asleep {
        assert recent + batch == recent;
        return;
      }
      var size := Batch(s0, k0, n0, recent);
      used := FreeOnce(script, used, start);
    }

    /** `run_traces` against a script of what happens whenever the mutex is free. It returns when the lane
        ends, or when it waits and the script has nothing more to wake it; `recent` is what it consumed. */
    method RunTraces(script: seq<Interlude>) returns (used: nat, ghost recent: seq<TransactionTrace>)
      requires Valid() && processQueue == []
      modifies this, db
      ensures Valid() && processQueue == [] && used <= |script|
      ensures pushed == old(pushed) + Arrivals(script[..used])
      ensures consumed == old(consumed) + recent && pushed == consumed + queue
      ensures HasConsumed(old(db.View()), old(db.begun), old(db.leases), recent)
      ensures !exit ==> used == |script| && queue == []
    {
      hide ConsumeOne;
      used, recent := 0, [];
      ghost var start, before, s0, k0, n0 := pushed, consumed, db.View(), db.begun, db.leases;
      while !exit
        invariant Follows(start, script, used) && processQueue == []
        invariant consumed == before + recent && HasConsumed(s0, k0, n0, recent)
        decreases |script| - used, |queue|, !exit
      {
        ghost var batch;
        var asleep;
        used, asleep, batch := Round(script, used, start, s0, k0, n0, recent);
        assert before + (recent + batch) == before + recent + batch;
        recent := recent + batch;
        if asleep {
          break;
        }
      }
    }
  }
}
