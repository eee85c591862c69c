/**
 Action traces, the block and transaction signals that carry them, and the traversal
 `dfs_inline_traces`: which actions of a trace forest are offered to the tables, in which order.
 */
module Traces {
  import opened Common

  /** An EOS name in its printed form. */
  type Name = string

  const SYSTEM: Name := "eosio"
  const MSIG: Name := "eosio.msig"

  datatype PermissionLevel = PermissionLevel(actor: Name, permission: Name)

  type Byte = b: int | 0 <= b < 256

  datatype Action = Action(account: Name, name: Name, authorization: seq<PermissionLevel>, data: seq<Byte>)

  datatype ActionTrace = ActionTrace(receiver: Name, act: Action, inlineTraces: seq<ActionTrace>)

  datatype TransactionTrace =
    TransactionTrace(id: string, blockNum: nat, blockTime: nat, actionTraces: seq<ActionTrace>)

  /** A receipt of a block: a packed transaction, one whose bytes do not unpack, or a bare hash. */
  datatype Receipt = Packed(trxId: string, actions: seq<Action>) | Corrupt | Hashed

  datatype BlockState = BlockState(blockNum: nat, timestamp: nat, receipts: seq<Receipt>)

  /** One call of `actions_table::add` on an action that passes the filter. */
  datatype Job = Job(act: Action, trxId: string, time: nat)

  type Filter = seq<Name>

  predicate Matched(filter: Filter, act: Action) {
    act.name in filter
  }

  predicate SelfReceived(t: ActionTrace) {
    t.receiver == t.act.account
  }

  /** The actions the traversal offers to the tables, in the order it reaches them. */
  function Frontier(filter: Filter, ts: seq<ActionTrace>): seq<Action>
    decreases ts
  {
    if ts == [] then []
    else FrontierOf(filter, ts[0]) + Frontier(filter, ts[1..])
  }

  function FrontierOf(filter: Filter, t: ActionTrace): seq<Action>
    decreases t
  {
    if !SelfReceived(t) then []
    else if Matched(filter, t.act) then [t.act]
    else Frontier(filter, t.inlineTraces)
  }

  // ---------------------------------------------------------------------------------------------
  // Positions in a forest
  // ---------------------------------------------------------------------------------------------

  /** The position of a node: the sibling index at each depth, root first. */
  type Path = seq<nat>

  predicate IsNode(ts: seq<ActionTrace>, p: Path)
    decreases p
  {
    p != [] && p[0] < |ts| && (|p| == 1 || IsNode(ts[p[0]].inlineTraces, p[1..]))
  }

  function NodeAt(ts: seq<ActionTrace>, p: Path): ActionTrace
    requires IsNode(ts, p)
    decreases p
  {
    if |p| == 1 then ts[p[0]] else NodeAt(ts[p[0]].inlineTraces, p[1..])
  }

  lemma {:induction false} PrefixIsNode(ts: seq<ActionTrace>, p: Path, k: nat)
    requires IsNode(ts, p) && 1 <= k <= |p|
    ensures IsNode(ts, p[..k])
    decreases p
  {
    if k > 1 {
      PrefixIsNode(ts[p[0]].inlineTraces, p[1..], k - 1);
      assert p[..k][1..] == p[1..][..k - 1];
    }
  }

  /** What the design asks of a recorded node, said of its position alone: the node received its own
      action and the filter names it, and every ancestor is self-received and not named by the filter. */
  ghost predicate Recorded(filter: Filter, ts: seq<ActionTrace>, p: Path) {
    && IsNode(ts, p)
    && NodeAt(ts, p).receiver == NodeAt(ts, p).act.account && NodeAt(ts, p).act.name in filter
    && forall k :: 1 <= k < |p| ==> Passed(filter, ts, p[..k])
  }

  /** The traversal goes below this node: self-received and not named by the filter. */
  ghost predicate Passed(filter: Filter, ts: seq<ActionTrace>, p: Path) {
    IsNode(ts, p) && NodeAt(ts, p).receiver == NodeAt(ts, p).act.account && NodeAt(ts, p).act.name !in filter
  }

  /** Preorder on positions: an ancestor comes before its descendants, siblings go left to right. */
  predicate Before(p: Path, q: Path)
    decreases p
  {
    q != [] && (p == [] || p[0] < q[0] || (p[0] == q[0] && Before(p[1..], q[1..])))
  }

  /** The positions of the frontier among the siblings from `i` on. */
  ghost function FrontierPaths(filter: Filter, ts: seq<ActionTrace>, i: nat): seq<Path>
    requires i <= |ts|
    decreases ts, |ts| - i
  {
    if i == |ts| then []
    else PathsAt(filter, ts, i) + FrontierPaths(filter, ts, i + 1)
  }

  ghost function PathsAt(filter: Filter, ts: seq<ActionTrace>, i: nat): seq<Path>
    requires i < |ts|
    decreases ts, |ts| - i, 0
  {
    if !SelfReceived(ts[i]) then []
    else if Matched(filter, ts[i].act) then [[i]]
    else Under(i, FrontierPaths(filter, ts[i].inlineTraces, 0))
  }

  ghost function Under(i: nat, ps: seq<Path>): seq<Path> {
    seq(|ps|, j requires 0 <= j < |ps| => [i] + ps[j])
  }

  /** Recordedness of a position, unfolded one level. */
  lemma RecordedStep(filter: Filter, ts: seq<ActionTrace>, i: nat, q: Path)
    requires i < |ts| && q != []
    ensures Recorded(filter, ts, [i] + q) <==>
            SelfReceived(ts[i]) && !Matched(filter, ts[i].act) && Recorded(filter, ts[i].inlineTraces, q)
  {
    var p := [i] + q;
    var below := ts[i].inlineTraces;
    assert p[1..] == q && p[..1] == [i];
    if IsNode(below, q) {
      forall k | 1 <= k < |q|
        ensures Passed(filter, ts, p[..k + 1]) <==> Passed(filter, below, q[..k])
      {
        PrefixIsNode(below, q, k);
        assert p[..k + 1][1..] == q[..k];
      }
      if Recorded(filter, ts, p) {
        assert Passed(filter, ts, p[..1]);
        forall k | 1 <= k < |q| ensures Passed(filter, below, q[..k]) {
          assert Passed(filter, ts, p[..k + 1]);
        }
      }
      if Passed(filter, ts, [i]) && Recorded(filter, below, q) {
        forall k | 1 <= k < |p| ensures Passed(filter, ts, p[..k]) {
          if k > 1 { assert Passed(filter, below, q[..k - 1]); }
        }
      }
    }
  }

  lemma RecordedRoot(filter: Filter, ts: seq<ActionTrace>, i: nat)
    requires i < |ts|
    ensures Recorded(filter, ts, [i]) <==> SelfReceived(ts[i]) && Matched(filter, ts[i].act)
  {
  }

  /** The frontier is exactly the set of recorded positions. */
  lemma {:induction false} FrontierIsRecorded(filter: Filter, ts: seq<ActionTrace>, i: nat, p: Path)
    requires i <= |ts|
    ensures p in FrontierPaths(filter, ts, i) <==> Recorded(filter, ts, p) && i <= p[0]
    decreases ts, |ts| - i
  {
    if i < |ts| {
      FrontierIsRecorded(filter, ts, i + 1, p);
      if p == [i] {
        RecordedRoot(filter, ts, i);
      } else if p != [] && p[0] == i {
        var below := ts[i].inlineTraces;
        assert p == [i] + p[1..];
        RecordedStep(filter, ts, i, p[1..]);
        FrontierIsRecorded(filter, below, 0, p[1..]);
        UnderMember(i, FrontierPaths(filter, below, 0), p[1..]);
      }
      assert p in PathsAt(filter, ts, i) ==> p != [] && p[0] == i;
      if p == [i] && p in Under(i, FrontierPaths(filter, ts[i].inlineTraces, 0)) {
        UnderMember(i, FrontierPaths(filter, ts[i].inlineTraces, 0), []);
        FrontierIsRecorded(filter, ts[i].inlineTraces, 0, []);
      }
    }
  }

  lemma UnderMember(i: nat, ps: seq<Path>, q: Path)
    ensures [i] + q in Under(i, ps) <==> q in ps
  {
    if [i] + q in Under(i, ps) {
      var j :| 0 <= j < |ps| && Under(i, ps)[j] == [i] + q;
      assert ([i] + ps[j])[1..] == ps[j] && ([i] + q)[1..] == q;
    }
    if q in ps {
      var j :| 0 <= j < |ps| && ps[j] == q;
      assert Under(i, ps)[j] == [i] + q;
    }
  }

  /** The frontier is reached in preorder, each position once. */
  lemma {:induction false} FrontierInPreorder(filter: Filter, ts: seq<ActionTrace>, i: nat)
    requires i <= |ts|
    ensures forall a, b :: 0 <= a < b < |FrontierPaths(filter, ts, i)| ==>
                             Before(FrontierPaths(filter, ts, i)[a], FrontierPaths(filter, ts, i)[b])
    decreases ts, |ts| - i
  {
    if i < |ts| {
      FrontierInPreorder(filter, ts, i + 1);
      var here, rest := PathsAt(filter, ts, i), FrontierPaths(filter, ts, i + 1);
      forall p | p in rest ensures p != [] && i < p[0] {
        FrontierIsRecorded(filter, ts, i + 1, p);
      }
      if SelfReceived(ts[i]) && !Matched(filter, ts[i].act) {
        var below := FrontierPaths(filter, ts[i].inlineTraces, 0);
        FrontierInPreorder(filter, ts[i].inlineTraces, 0);
        forall a, b | 0 <= a < b < |below| ensures Before(here[a], here[b]) {
          assert Before(below[a], below[b]);
          assert here[a][1..] == below[a] && here[b][1..] == below[b];
        }
      }
      assert forall p :: p in here ==> p != [] && p[0] == i;
      forall a, b | 0 <= a < b < |here + rest| ensures Before((here + rest)[a], (here + rest)[b]) {
        if a < |here| <= b {
          assert here[a] in here && rest[b - |here|] in rest;
        } else if |here| <= a {
          assert Before(rest[a - |here|], rest[b - |here|]);
        }
      }
    }
  }

  /** The actions offered are those at the frontier positions, in the same order. */
  lemma {:induction false} FrontierActions(filter: Filter, ts: seq<ActionTrace>, i: nat)
    requires i <= |ts|
    ensures |Frontier(filter, ts[i..])| == |FrontierPaths(filter, ts, i)|
    ensures forall j :: 0 <= j < |FrontierPaths(filter, ts, i)| ==>
                          && IsNode(ts, FrontierPaths(filter, ts, i)[j])
                          && Frontier(filter, ts[i..])[j] == NodeAt(ts, FrontierPaths(filter, ts, i)[j]).act
    decreases ts, |ts| - i
  {
    if i < |ts| {
      FrontierActions(filter, ts, i + 1);
      assert ts[i..][1..] == ts[i + 1..] && ts[i..][0] == ts[i];
      var here := PathsAt(filter, ts, i);
      var below := ts[i].inlineTraces;
      FrontierActions(filter, below, 0);
      assert below[0..] == below;
      forall j | 0 <= j < |here|
        ensures IsNode(ts, here[j]) && FrontierOf(filter, ts[i])[j] == NodeAt(ts, here[j]).act
      {
        if !Matched(filter, ts[i].act) {
          assert here[j][1..] == FrontierPaths(filter, below, 0)[j];
        }
      }
    }
  }

  /** The whole traversal: the offered actions are, in preorder, those at exactly the recorded positions. */
  lemma FrontierCharacterised(filter: Filter, ts: seq<ActionTrace>) returns (ps: seq<Path>)
    ensures forall p :: p in ps <==> Recorded(filter, ts, p)
    ensures forall a, b :: 0 <= a < b < |ps| ==> Before(ps[a], ps[b])
    ensures |Frontier(filter, ts)| == |ps|
    ensures forall j :: 0 <= j < |ps| ==> IsNode(ts, ps[j]) && Frontier(filter, ts)[j] == NodeAt(ts, ps[j]).act
  {
    ps := FrontierPaths(filter, ts, 0);
    forall p ensures p in ps <==> Recorded(filter, ts, p) { FrontierIsRecorded(filter, ts, 0, p); }
    FrontierInPreorder(filter, ts, 0);
    FrontierActions(filter, ts, 0);
    assert ts[0..] == ts;
  }

  /** No recorded action lies below another. */
  lemma FrontierIsAntichain(filter: Filter, ts: seq<ActionTrace>, p: Path, q: Path)
    requires Recorded(filter, ts, p) && p < q
    ensures !Recorded(filter, ts, q)
  {
    assert q[..|p|] == p;
    assert !Passed(filter, ts, q[..|p|]);
  }

  /** Widening the filter keeps every record, or moves it up to a recorded ancestor. */
  lemma WiderFilterCovers(small: Filter, wide: Filter, ts: seq<ActionTrace>, p: Path) returns (q: Path)
    requires forall n :: n in small ==> n in wide
    requires Recorded(small, ts, p)
    ensures q <= p && Recorded(wide, ts, q)
  {
    q := FirstMatch(wide, ts, p, 1);
    forall k | 1 <= k < |q| ensures Passed(wide, ts, q[..k]) {
      assert q[..k] == p[..k];
      assert Passed(small, ts, p[..k]);
    }
    if |q| < |p| {
      assert p[..|q|] == q;
      assert Passed(small, ts, p[..|q|]);
    } else {
      assert q == p;
    }
  }

  /** The shortest prefix of `p`, of length at least `k`, that the filter names. */
  lemma {:induction false} FirstMatch(filter: Filter, ts: seq<ActionTrace>, p: Path, k: nat) returns (q: Path)
    requires IsNode(ts, p) && 1 <= k <= |p| && Matched(filter, NodeAt(ts, p).act)
    ensures IsNode(ts, q) && q <= p && k <= |q| && Matched(filter, NodeAt(ts, q).act)
    ensures forall j :: k <= j < |q| ==> IsNode(ts, p[..j]) && !Matched(filter, NodeAt(ts, p[..j]).act)
    decreases |p| - k
  {
    PrefixIsNode(ts, p, k);
    if Matched(filter, NodeAt(ts, p[..k]).act) || k == |p| {
      assert p[..|p|] == p;
      q := p[..k];
    } else {
      q := FirstMatch(filter, ts, p, k + 1);
    }
  }

  // ---------------------------------------------------------------------------------------------
  // Entries of the two lanes
  // ---------------------------------------------------------------------------------------------

  /** What a signal hands to the consumer. */
  datatype Entry = BlockEntry(block: BlockState) | TraceEntry(trace: TransactionTrace)

  predicate LoneOnblock(actions: seq<Action>) {
    |actions| == 1 && actions[0].name == "onblock"
  }

  /** The gates between a chain signal and the queue. */
  predicate Passes(startBlock: nat, e: Entry) {
    match e
    case BlockEntry(b) => b.blockNum >= startBlock
    case TraceEntry(t) =>
      var acts := seq(|t.actionTraces|, i requires 0 <= i < |t.actionTraces| => t.actionTraces[i].act);
      t.blockNum >= startBlock && !LoneOnblock(acts)
  }

  function ToJobs(actions: seq<Action>, trxId: string, time: nat): seq<Job> {
    seq(|actions|, i requires 0 <= i < |actions| => Job(actions[i], trxId, time))
  }

  function Select(filter: Filter, actions: seq<Action>): seq<Action> {
    if actions == [] then []
    else (if Matched(filter, actions[0]) then [actions[0]] else []) + Select(filter, actions[1..])
  }

  /** The actions of a block for which a session is leased: those of its receipts in order, up to the first one
      that does not unpack. */
  function Offers(receipts: seq<Receipt>, time: nat): seq<Job> {
    if receipts == [] then []
    else
      match receipts[0]
      case Corrupt => []
      case Hashed => Offers(receipts[1..], time)
      case Packed(id, actions) =>
        (if LoneOnblock(actions) then [] else ToJobs(actions, id, time)) + Offers(receipts[1..], time)
  }

  /** Those that the filter names. */
  function Wanted(filter: Filter, offers: seq<Job>): seq<Job> {
    if offers == [] then []
    else (if Matched(filter, offers[0].act) then [offers[0]] else []) + Wanted(filter, offers[1..])
  }

  /** The records of a block: its receipts in order, up to the first one that does not unpack. */
  function BlockJobs(filter: Filter, receipts: seq<Receipt>, time: nat): seq<Job> {
    if receipts == [] then []
    else
      match receipts[0]
      case Corrupt => []
      case Hashed => BlockJobs(filter, receipts[1..], time)
      case Packed(id, actions) =>
        (if LoneOnblock(actions) then [] else ToJobs(Select(filter, actions), id, time))
        + BlockJobs(filter, receipts[1..], time)
  }

  /** The entry can be consumed to its end: no receipt of a block is beyond unpacking. */
  predicate Unpacks(e: Entry) {
    e.BlockEntry? ==> Corrupt !in e.block.receipts
  }

  /** The records an entry asks for, in order. */
  function Jobs(filter: Filter, e: Entry): seq<Job> {
    match e
    case BlockEntry(b) => BlockJobs(filter, b.receipts, b.timestamp)
    case TraceEntry(t) => ToJobs(Frontier(filter, t.actionTraces), t.id, t.blockTime)
  }

  lemma {:induction false} WantedConcat(filter: Filter, xs: seq<Job>, ys: seq<Job>)
    ensures Wanted(filter, xs + ys) == Wanted(filter, xs) + Wanted(filter, ys)
  {
    if xs == [] {
      assert xs + ys == ys;
    } else {
      HeadAndTail(xs, ys);
      WantedConcat(filter, xs[1..], ys);
      Associates(if Matched(filter, xs[0].act) then [xs[0]] else [], Wanted(filter, xs[1..]), Wanted(filter, ys));
    }
  }

  lemma {:induction false} WantedAreSelected(filter: Filter, acts: seq<Action>, trxId: string, time: nat)
    ensures Wanted(filter, ToJobs(acts, trxId, time)) == ToJobs(Select(filter, acts), trxId, time)
  {
    if acts != [] {
      WantedAreSelected(filter, acts[1..], trxId, time);
      assert ToJobs(acts, trxId, time)[1..] == ToJobs(acts[1..], trxId, time);
    }
  }

  /** The records of a block are the wanted ones of its actions. */
  lemma {:induction false} BlockJobsAreWanted(filter: Filter, receipts: seq<Receipt>, time: nat)
    ensures BlockJobs(filter, receipts, time) == Wanted(filter, Offers(receipts, time))
  {
    if receipts != [] && !receipts[0].Corrupt? {
      BlockJobsAreWanted(filter, receipts[1..], time);
      if receipts[0].Packed? {
        var acts, id := receipts[0].actions, receipts[0].trxId;
        WantedConcat(filter, if LoneOnblock(acts) then [] else ToJobs(acts, id, time), Offers(receipts[1..], time));
        WantedAreSelected(filter, acts, id, time);
      }
    }
  }

  /** The records of a trace: in preorder the actions at the recorded positions, with the trace's id and time. */
  lemma TraceRecords(filter: Filter, t: TransactionTrace) returns (ps: seq<Path>)
    ensures forall p :: p in ps <==> Recorded(filter, t.actionTraces, p)
    ensures forall a, b :: 0 <= a < b < |ps| ==> Before(ps[a], ps[b])
    ensures var jobs := Jobs(filter, TraceEntry(t));
            |jobs| == |ps| && forall j :: 0 <= j < |ps| ==>
              IsNode(t.actionTraces, ps[j]) && jobs[j] == Job(NodeAt(t.actionTraces, ps[j]).act, t.id, t.blockTime)
  {
    ps := FrontierCharacterised(filter, t.actionTraces);
  }

  /** Action `a` of receipt `r` is recorded: no receipt up to `r` is beyond unpacking, the receipt holds a
      transaction that is not a lone onblock, and the filter names the action. */
  predicate BlockRecorded(filter: Filter, receipts: seq<Receipt>, r: nat, a: nat) {
    && r < |receipts| && Corrupt !in receipts[..r + 1] && receipts[r].Packed?
    && !(|receipts[r].actions| == 1 && receipts[r].actions[0].name == "onblock")
    && a < |receipts[r].actions| && receipts[r].actions[a].name in filter
  }

  /** Positions in a block, receipt by receipt and action by action. */
  predicate Earlier(p: (nat, nat), q: (nat, nat)) {
    p.0 < q.0 || (p.0 == q.0 && p.1 < q.1)
  }

  ghost predicate AreBlockRecords(filter: Filter, receipts: seq<Receipt>, time: nat, ps: seq<(nat, nat)>,
                                  jobs: seq<Job>)
  {
    && |jobs| == |ps| && (forall x, y :: 0 <= x < y < |ps| ==> Earlier(ps[x], ps[y]))
    && (forall r: nat, a: nat :: (r, a) in ps <==> BlockRecorded(filter, receipts, r, a))
    && (forall j :: 0 <= j < |ps| ==> IsBlockJob(receipts, time, ps[j], jobs[j]))
  }

  predicate IsBlockJob(receipts: seq<Receipt>, time: nat, p: (nat, nat), job: Job) {
    && p.0 < |receipts| && receipts[p.0].Packed? && p.1 < |receipts[p.0].actions|
    && job == Job(receipts[p.0].actions[p.1], receipts[p.0].trxId, time)
  }

  /** `at` are the places of the actions the filter names. */
  ghost predicate AreSelected(filter: Filter, acts: seq<Action>, at: seq<nat>) {
    && |at| == |Select(filter, acts)| && Increasing(at)
    && (forall i: nat :: i in at <==> i < |acts| && acts[i].name in filter)
    && (forall j :: 0 <= j < |at| ==> at[j] < |acts| && Select(filter, acts)[j] == acts[at[j]])
  }

  lemma {:induction false} SelectedAt(filter: Filter, acts: seq<Action>) returns (at: seq<nat>)
    ensures AreSelected(filter, acts, at)
  {
    if acts == [] {
      at := [];
    } else {
      var rest := SelectedAt(filter, acts[1..]);
      at := Places(acts[0].name in filter, rest);
      PlacesIncrease(acts[0].name in filter, rest);
      forall i: nat ensures i in at <==> i < |acts| && acts[i].name in filter {
        PlacesMember(acts[0].name in filter, rest, i);
      }
    }
  }

  lemma RecordedTail(filter: Filter, receipts: seq<Receipt>, r: nat, a: nat)
    requires receipts != []
    ensures BlockRecorded(filter, receipts, r + 1, a) <==>
            !receipts[0].Corrupt? && BlockRecorded(filter, receipts[1..], r, a)
  {
    if r + 1 < |receipts| {
      assert receipts[..r + 2] == [receipts[0]] + receipts[1..][..r + 1];
    }
  }

  lemma NoBlockRecords(filter: Filter, receipts: seq<Receipt>, time: nat)
    requires receipts == [] || receipts[0].Corrupt?
    ensures AreBlockRecords(filter, receipts, time, [], [])
  {
    forall r: nat, a: nat ensures !BlockRecorded(filter, receipts, r, a) {
      if r < |receipts| {
        assert receipts[..r + 1][0] == receipts[0];
      }
    }
  }

  /** Behind the records of the first receipt come those of the others. */
  lemma BlockRecordsCons(filter: Filter, receipts: seq<Receipt>, time: nat, at: seq<nat>, head: seq<Job>,
                         ps: seq<(nat, nat)>, jobs: seq<Job>)
    requires receipts != [] && !receipts[0].Corrupt? && AreBlockRecords(filter, receipts[1..], time, ps, jobs)
    requires |at| == |head| && Increasing(at)
    requires forall a: nat :: a in at <==> BlockRecorded(filter, receipts, 0, a)
    requires forall j :: 0 <= j < |at| ==> IsBlockJob(receipts, time, (0, at[j]), head[j])
    ensures AreBlockRecords(filter, receipts, time, Here(at) + Next(ps), head + jobs)
  {
    hide BlockRecorded;
    var all := Here(at) + Next(ps);
    PlacesInOrder(at, ps);
    forall r: nat, a: nat ensures (r, a) in all <==> BlockRecorded(filter, receipts, r, a) {
      PlacesOf(at, ps, r, a);
      if r > 0 {
        RecordedTail(filter, receipts, r - 1, a);
      }
    }
    forall j | 0 <= j < |all| ensures IsBlockJob(receipts, time, all[j], (head + jobs)[j]) {
      if j >= |at| {
        assert IsBlockJob(receipts[1..], time, ps[j - |at|], jobs[j - |at|]);
      }
    }
  }

  function Here(at: seq<nat>): seq<(nat, nat)> {
    seq(|at|, j requires 0 <= j < |at| => (0, at[j]))
  }

  function Next(ps: seq<(nat, nat)>): seq<(nat, nat)> {
    seq(|ps|, j requires 0 <= j < |ps| => (ps[j].0 + 1, ps[j].1))
  }

  lemma PlacesInOrder(at: seq<nat>, ps: seq<(nat, nat)>)
    requires Increasing(at) && forall x, y :: 0 <= x < y < |ps| ==> Earlier(ps[x], ps[y])
    ensures forall x, y :: 0 <= x < y < |Here(at) + Next(ps)| ==>
              Earlier((Here(at) + Next(ps))[x], (Here(at) + Next(ps))[y])
  {
    var all := Here(at) + Next(ps);
    forall x, y | 0 <= x < y < |all| ensures Earlier(all[x], all[y]) {
      if x >= |at| { assert Earlier(ps[x - |at|], ps[y - |at|]); }
    }
  }

  lemma PlacesOf(at: seq<nat>, ps: seq<(nat, nat)>, r: nat, a: nat)
    ensures (r, a) in Here(at) + Next(ps) <==> if r == 0 then a in at else (r - 1, a) in ps
  {
    var all := Here(at) + Next(ps);
    if j :| 0 <= j < |at| && at[j] == a && r == 0 { assert all[j] == (r, a); }
    if j :| 0 <= j < |ps| && r > 0 && ps[j] == (r - 1, a) { assert all[|at| + j] == (r, a); }
    if j :| 0 <= j < |all| && all[j] == (r, a) {
      if j < |at| { assert at[j] == a; } else { assert ps[j - |at|] == (r - 1, a); }
    }
  }

  /** The records of a block, position by position. */
  lemma {:induction false} BlockRecords(filter: Filter, receipts: seq<Receipt>, time: nat) returns (ps: seq<(nat, nat)>)
    ensures AreBlockRecords(filter, receipts, time, ps, BlockJobs(filter, receipts, time))
  {
    hide AreBlockRecords, BlockRecorded;
    if receipts == [] || receipts[0].Corrupt? {
      ps := [];
      NoBlockRecords(filter, receipts, time);
    } else {
      var rest := BlockRecords(filter, receipts[1..], time);
      var at, head := FirstReceipt(filter, receipts, time);
      BlockRecordsCons(filter, receipts, time, at, head, rest, BlockJobs(filter, receipts[1..], time));
      ps := Here(at) + Next(rest);
      assert [] + BlockJobs(filter, receipts[1..], time) == BlockJobs(filter, receipts[1..], time);
    }
  }

  lemma FirstReceipt(filter: Filter, receipts: seq<Receipt>, time: nat) returns (at: seq<nat>, head: seq<Job>)
    requires receipts != [] && !receipts[0].Corrupt?
    ensures |at| == |head| && Increasing(at)
    ensures forall a: nat :: a in at <==> BlockRecorded(filter, receipts, 0, a)
    ensures forall j :: 0 <= j < |at| ==> IsBlockJob(receipts, time, (0, at[j]), head[j])
    ensures head == if receipts[0].Packed? && !LoneOnblock(receipts[0].actions)
                    then ToJobs(Select(filter, receipts[0].actions), receipts[0].trxId, time) else []
  {
    assert receipts[..1] == [receipts[0]];
    at, head := [], [];
    if receipts[0].Packed? && !LoneOnblock(receipts[0].actions) {
      at := SelectedAt(filter, receipts[0].actions);
      head := ToJobs(Select(filter, receipts[0].actions), receipts[0].trxId, time);
    }
  }

  /** The gates, spelled out. */
  predicate GateOpen(startBlock: nat, e: Entry) {
    match e
    case BlockEntry(b) => startBlock <= b.blockNum
    case TraceEntry(t) =>
      startBlock <= t.blockNum && (|t.actionTraces| == 1 ==> t.actionTraces[0].act.name != "onblock")
  }

  lemma PassesExactly(startBlock: nat, e: Entry)
    ensures Passes(startBlock, e) <==> GateOpen(startBlock, e)
  {
  }
}
