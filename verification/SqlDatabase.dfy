/**
 `sql_database` and `actions_table` in their own form: an object whose tables are written in place, a
 traversal that interleaves walking a trace with writing tables, and exceptions that end it early. Each
 method is tied to the functions of ActionsTable.
 */
module SqlDatabase {
  import opened Common
  import opened Traces
  import opened Tables
  import opened Statements
  import Model = ActionsTable

  // ---------------------------------------------------------------------------------------------
  // What recording a list of actions does
  // ---------------------------------------------------------------------------------------------

  /** The database's answer to the statements of the n-th recorded action. */
  type Fates = nat -> Model.Outcomes

  /** Whether the n-th session can be had. */
  type Sessions = nat -> bool

  /** What the database object meets and cannot change. */
  datatype Environment = Environment(codec: Model.Codec, filter: Filter, fates: Fates, sessions: Sessions)

  /** Tables, number of recorded actions begun so far, and whether an exception got out. */
  datatype Ran = Ran(store: Store, begun: nat, threw: bool)

  function RunJobs(codec: Model.Codec, fates: Fates, s: Store, k: nat, jobs: seq<Job>): Ran
    decreases |jobs|
  {
    if jobs == [] then Ran(s, k, false)
    else
      var r := Model.Add(codec, s, Model.Attempt(jobs[0], fates(k)));
      var t := ApplyAll(s, r.stmts);
      if r.threw then Ran(t, k + 1, true) else RunJobs(codec, fates, t, k + 1, jobs[1..])
  }

  lemma {:induction false} RunConcat(codec: Model.Codec, fates: Fates, s: Store, k: nat, xs: seq<Job>, ys: seq<Job>)
    ensures var first := RunJobs(codec, fates, s, k, xs);
            RunJobs(codec, fates, s, k, xs + ys)
            == if first.threw then first else RunJobs(codec, fates, first.store, first.begun, ys)
    decreases |xs|
  {
    if xs == [] {
      assert xs + ys == ys;
    } else {
      assert (xs + ys)[1..] == xs[1..] + ys;
      var r := Model.Add(codec, s, Model.Attempt(xs[0], fates(k)));
      if !r.threw {
        RunConcat(codec, fates, ApplyAll(s, r.stmts), k + 1, xs[1..], ys);
      }
    }
  }

  lemma RunSingle(codec: Model.Codec, fates: Fates, s: Store, k: nat, job: Job)
    ensures var r := Model.Add(codec, s, Model.Attempt(job, fates(k)));
            RunJobs(codec, fates, s, k, [job]) == Ran(ApplyAll(s, r.stmts), k + 1, r.threw)
  {
    assert [job][1..] == [];
  }

  /** The attempts of `jobs`, numbered from `k`. */
  function Attempts(fates: Fates, k: nat, jobs: seq<Job>): seq<Model.Attempt> {
    seq(|jobs|, i requires 0 <= i < |jobs| => Model.Attempt(jobs[i], fates(k + i)))
  }

  lemma AttemptsShift(codec: Model.Codec, fates: Fates, s: Store, k: nat, jobs: seq<Job>, i: nat)
    requires i < |jobs|
    ensures var t := ApplyAll(s, Model.Add(codec, s, Model.Attempt(jobs[0], fates(k))).stmts);
            Model.Replay(codec, s, Attempts(fates, k, jobs[..i + 1]))
            == Model.Replay(codec, t, Attempts(fates, k + 1, jobs[1..][..i]))
  {
    var a := Model.Attempt(jobs[0], fates(k));
    var later := Attempts(fates, k + 1, jobs[1..][..i]);
    assert Attempts(fates, k, jobs[..i + 1]) == [a] + later;
    ReplayCons(codec, s, a, later);
  }

  /** One step of `RunJobs`. */
  lemma RunHead(codec: Model.Codec, fates: Fates, s: Store, k: nat, jobs: seq<Job>, r: Model.Result, t: Store)
    requires jobs != [] && r == Model.Add(codec, s, Model.Attempt(jobs[0], fates(k))) && t == ApplyAll(s, r.stmts)
    ensures RunJobs(codec, fates, s, k, jobs) ==
            if r.threw then Ran(t, k + 1, true) else RunJobs(codec, fates, t, k + 1, jobs[1..])
  {
  }

  lemma {:induction false} RunBounds(codec: Model.Codec, fates: Fates, s: Store, k: nat, jobs: seq<Job>)
    ensures var ran := RunJobs(codec, fates, s, k, jobs);
            k <= ran.begun <= k + |jobs| && if ran.threw then ran.begun > k else ran.begun == k + |jobs|
    decreases |jobs|
  {
    if jobs != [] {
      var r := Model.Add(codec, s, Model.Attempt(jobs[0], fates(k)));
      RunBounds(codec, fates, ApplyAll(s, r.stmts), k + 1, jobs[1..]);
    }
  }

  lemma OneAttempt(codec: Model.Codec, fates: Fates, s: Store, k: nat, jobs: seq<Job>)
    requires jobs != []
    ensures Model.Replay(codec, s, Attempts(fates, k, jobs[..1]))
            == ApplyAll(s, Model.Add(codec, s, Model.Attempt(jobs[0], fates(k))).stmts)
  {
    AttemptsShift(codec, fates, s, k, jobs, 0);
    assert Attempts(fates, k + 1, jobs[1..][..0]) == [];
  }

  /** The actions begun are a prefix of the list, all of it unless conversion threw, and the tables are
      the replay of those begun. */
  lemma {:induction false} RanIsAPrefix(codec: Model.Codec, fates: Fates, s: Store, k: nat, jobs: seq<Job>, ran: Ran)
    requires ran == RunJobs(codec, fates, s, k, jobs)
    ensures k <= ran.begun <= k + |jobs| && (!ran.threw ==> ran.begun == k + |jobs|)
    ensures ran.store == Model.Replay(codec, s, Attempts(fates, k, jobs[..ran.begun - k]))
    decreases |jobs|
  {
    hide Model.Add, ApplyAll;
    RunBounds(codec, fates, s, k, jobs);
    if jobs == [] {
      assert Attempts(fates, k, jobs[..0]) == [];
    } else {
      var r := Model.Add(codec, s, Model.Attempt(jobs[0], fates(k)));
      var t := ApplyAll(s, r.stmts);
      RunHead(codec, fates, s, k, jobs, r, t);
      if r.threw {
        OneAttempt(codec, fates, s, k, jobs);
      } else {
        RanIsAPrefix(codec, fates, t, k + 1, jobs[1..], ran);
        AttemptsShift(codec, fates, s, k, jobs, ran.begun - k - 1);
      }
    }
  }

  lemma HeadThrows(codec: Model.Codec, fates: Fates, s: Store, k: nat, jobs: seq<Job>, ran: Ran, r: Model.Result)
    requires jobs != [] && ran == RunJobs(codec, fates, s, k, jobs)
    requires r == Model.Add(codec, s, Model.Attempt(jobs[0], fates(k)))
    ensures r.threw <==> ran.threw && k + 1 == ran.begun
  {
    var t := ApplyAll(s, r.stmts);
    RunHead(codec, fates, s, k, jobs, r, t);
    RunBounds(codec, fates, t, k + 1, jobs[1..]);
  }

  lemma RanWhole(codec: Model.Codec, fates: Fates, s: Store, k: nat, jobs: seq<Job>, ran: Ran)
    requires ran == RunJobs(codec, fates, s, k, jobs) && !ran.threw
    ensures ran == Ran(Model.Replay(codec, s, Attempts(fates, k, jobs)), k + |jobs|, false)
  {
    RanIsAPrefix(codec, fates, s, k, jobs, ran);
    assert jobs[..|jobs|] == jobs;
  }

  /** A run that goes beyond the actions `xs` has begun them all without a throw. */
  lemma RunReaches(codec: Model.Codec, fates: Fates, s: Store, k: nat, xs: seq<Job>, ys: seq<Job>, ran: Ran, first: Ran)
    requires ran == RunJobs(codec, fates, s, k, xs + ys) && k + |xs| < ran.begun
    requires first == RunJobs(codec, fates, s, k, xs)
    ensures first == Ran(Model.Replay(codec, s, Attempts(fates, k, xs)), k + |xs|, false)
    ensures ran == RunJobs(codec, fates, first.store, k + |xs|, ys)
  {
    hide Model.Add;
    RunConcat(codec, fates, s, k, xs, ys);
    RunBounds(codec, fates, s, k, xs);
    RanWhole(codec, fates, s, k, xs, first);
  }

  /** Failure containment: of the actions begun only the last can have thrown, and it did exactly when the
      run was cut short. `r` is what action `i` comes to when the ones before it have been recorded. */
  lemma OnlyTheLastThrows(codec: Model.Codec, fates: Fates, s: Store, k: nat, jobs: seq<Job>, ran: Ran, i: nat,
                          r: Model.Result)
    requires ran == RunJobs(codec, fates, s, k, jobs) && i < |jobs| && k + i < ran.begun
    requires r == Model.Add(codec, Model.Replay(codec, s, Attempts(fates, k, jobs[..i])),
                            Model.Attempt(jobs[i], fates(k + i)))
    ensures r.threw <==> ran.threw && k + i + 1 == ran.begun
  {
    hide Model.Add, ApplyAll, RunJobs, Model.Replay;
    assert jobs[..i] + jobs[i..] == jobs && jobs[i..][0] == jobs[i];
    var first := RunJobs(codec, fates, s, k, jobs[..i]);
    RunReaches(codec, fates, s, k, jobs[..i], jobs[i..], ran, first);
    HeadThrows(codec, fates, first.store, k + i, jobs[i..], ran, r);
  }

  lemma {:induction false} ReplayCons(codec: Model.Codec, s: Store, a: Model.Attempt, log: seq<Model.Attempt>)
    ensures Model.Replay(codec, s, [a] + log) == Model.Replay(codec, ApplyAll(s, Model.Add(codec, s, a).stmts), log)
  {
    var all := [a] + log;
    if log == [] {
      assert all == [a] && all[..0] == [];
    } else {
      assert all[..|all| - 1] == [a] + log[..|log| - 1];
      ReplayCons(codec, s, a, log[..|log| - 1]);
    }
  }

  // ---------------------------------------------------------------------------------------------
  // Sessions
  // ---------------------------------------------------------------------------------------------

  /** Consuming a trace: one session is leased for it, the `n`-th in all. */
  function ConsumeOne(env: Environment, s: Store, k: nat, n: nat, t: TransactionTrace): Ran {
    if env.sessions(n) then RunJobs(env.codec, env.fates, s, k, Jobs(env.filter, TraceEntry(t)))
    else Ran(s, k, true)
  }

  /** A run and the number of sessions leased by its end. */
  datatype Leased = Leased(ran: Ran, leases: nat)

  /** The actions of a block, one after the other: a session is leased for each, whether or not the filter names
      it. */
  function RunOffers(env: Environment, s: Store, k: nat, n: nat, offers: seq<Job>): Leased
    decreases |offers|
  {
    if offers == [] then Leased(Ran(s, k, false), n)
    else if !env.sessions(n) then Leased(Ran(s, k, true), n + 1)
    else if !Matched(env.filter, offers[0].act) then RunOffers(env, s, k, n + 1, offers[1..])
    else
      var r := Model.Add(env.codec, s, Model.Attempt(offers[0], env.fates(k)));
      var t := ApplyAll(s, r.stmts);
      if r.threw then Leased(Ran(t, k + 1, true), n + 1) else RunOffers(env, t, k + 1, n + 1, offers[1..])
  }

  lemma {:induction false} OffersConcat(env: Environment, s: Store, k: nat, n: nat, xs: seq<Job>, ys: seq<Job>)
    ensures var first := RunOffers(env, s, k, n, xs);
            RunOffers(env, s, k, n, xs + ys) ==
            if first.ran.threw then first else RunOffers(env, first.ran.store, first.ran.begun, first.leases, ys)
    decreases |xs|
  {
    hide Model.Add, ApplyAll;
    if xs == [] {
      assert xs + ys == ys;
    } else {
      HeadAndTail(xs, ys);
      if env.sessions(n) {
        if Matched(env.filter, xs[0].act) {
          var r := Model.Add(env.codec, s, Model.Attempt(xs[0], env.fates(k)));
          if !r.threw {
            OffersConcat(env, ApplyAll(s, r.stmts), k + 1, n + 1, xs[1..], ys);
          }
        } else {
          OffersConcat(env, s, k, n + 1, xs[1..], ys);
        }
      }
    }
  }

  /** How many of the next `count` sessions can be had before one cannot. */
  function Available(sessions: Sessions, n: nat, count: nat): (m: nat)
    ensures m <= count
    ensures forall i :: n <= i < n + m ==> sessions(i)
    ensures m < count ==> !sessions(n + m)
    decreases count
  {
    if count == 0 || !sessions(n) then 0 else 1 + Available(sessions, n + 1, count - 1)
  }

  lemma WantedHead(filter: Filter, offers: seq<Job>, m: nat)
    requires 0 < m <= |offers|
    ensures Wanted(filter, offers[..m]) ==
            if Matched(filter, offers[0].act) then [offers[0]] + Wanted(filter, offers[1..][..m - 1])
            else Wanted(filter, offers[1..][..m - 1])
  {
    assert offers[..m][1..] == offers[1..][..m - 1] && offers[..m][0] == offers[0];
    assert [] + Wanted(filter, offers[1..][..m - 1]) == Wanted(filter, offers[1..][..m - 1]);
  }

  lemma WantedNothing(filter: Filter, offers: seq<Job>)
    ensures Wanted(filter, offers[..0]) == []
  {
  }

  /** A missing session cuts a block short and does nothing else: what is recorded is what the actions before it
      ask for. */
  lemma {:induction false} SessionsCutBlocks(env: Environment, s: Store, k: nat, n: nat, offers: seq<Job>)
    ensures var m := Available(env.sessions, n, |offers|);
            var ran := RunJobs(env.codec, env.fates, s, k, Wanted(env.filter, offers[..m]));
            RunOffers(env, s, k, n, offers).ran ==
            if ran.threw then ran else Ran(ran.store, ran.begun, m < |offers|)
    decreases |offers|
  {
    hide Model.Add, ApplyAll, Wanted, Matched;
    WantedNothing(env.filter, offers);
    if offers != [] && env.sessions(n) {
      var m := Available(env.sessions, n, |offers|);
      var rest := offers[1..];
      var wanted := Wanted(env.filter, rest[..m - 1]);
      WantedHead(env.filter, offers, m);
      if Matched(env.filter, offers[0].act) {
        var r := Model.Add(env.codec, s, Model.Attempt(offers[0], env.fates(k)));
        var t := ApplyAll(s, r.stmts);
        assert ([offers[0]] + wanted)[1..] == wanted;
        RunHead(env.codec, env.fates, s, k, [offers[0]] + wanted, r, t);
        SessionsCutBlocks(env, t, k + 1, n + 1, rest);
      } else {
        SessionsCutBlocks(env, s, k, n + 1, rest);
      }
    }
  }

  /** With a session for every action, a block is recorded as its list of records says. */
  lemma BlockIsItsJobs(env: Environment, s: Store, k: nat, n: nat, b: BlockState)
    requires var offers := Offers(b.receipts, b.timestamp);
             Available(env.sessions, n, |offers|) == |offers|
    ensures RunOffers(env, s, k, n, Offers(b.receipts, b.timestamp)).ran
            == RunJobs(env.codec, env.fates, s, k, Jobs(env.filter, BlockEntry(b)))
  {
    var offers := Offers(b.receipts, b.timestamp);
    hide RunOffers, RunJobs, Offers, BlockJobs, Wanted;
    SessionsCutBlocks(env, s, k, n, offers);
    BlockJobsAreWanted(env.filter, b.receipts, b.timestamp);
    assert offers[..|offers|] == offers;
  }

  // ---------------------------------------------------------------------------------------------
  // The object
  // ---------------------------------------------------------------------------------------------

  class Database {
    const env: Environment
    const codec := env.codec
    const filter := env.filter
    const fates := env.fates

    var actions: seq<ActionRecord>
    var accounts: Table<Name, Option<string>>
    var keys: seq<KeyRow>
    var votes: Table<Name, Vote>
    var proposals: Table<ProposalKey, string>
    var assets: Table<AssetKey, AssetInfo>
    var begun: nat   // recorded actions begun so far
    var leases: nat  // sessions asked for so far

    constructor (env: Environment, s: Store)
      ensures this.env == env && View() == s && begun == 0 && leases == 0
    {
      this.env := env;
      actions, accounts, keys := s.actions, s.accounts, s.keys;
      votes, proposals, assets := s.votes, s.proposals, s.assets;
      begun, leases := 0, 0;
    }

    function View(): Store
      reads this
    {
      Store(actions, accounts, keys, votes, proposals, assets)
    }

    /** `get_session`: true if a session can be had. */
    method Lease() returns (ok: bool)
      modifies this`leases
      ensures ok == env.sessions(old(leases)) && leases == old(leases) + 1
    {
      ok := env.sessions(leases);
      leases := leases + 1;
    }

    /** On the first start from block zero the system account is created with the built-in ABI. */
    method Bootstrap(startBlock: nat, inserted: bool)
      modifies this`accounts
      ensures var known := Get(old(accounts), SYSTEM).Some?;
              View() == if !known && startBlock == 0 && inserted
                        then ApplyAll(old(View()), [StoreAbi(SYSTEM, codec.builtinAbi)])
                        else old(View())
    {
      ApplyOne(View(), StoreAbi(SYSTEM, codec.builtinAbi));
      if Find(accounts.rows, SYSTEM) == |accounts.rows| && startBlock == 0 {
        if inserted {
          accounts := Insert(accounts, SYSTEM, Some(codec.builtinAbi));
        }
      }
    }

    method AddData(act: Action, o: Model.Outcomes) returns (json: string)
      modifies this`accounts
      ensures var p := Model.AddData(codec, Model.SelectAbi(old(accounts), act.account), act, o);
              json == p.json && View() == ApplyAll(old(View()), p.stmts)
    {
      json := "{}";
      if |act.data| == 0 {
        return;
      }
      if Model.IsSetAbi(act) {
        match codec.setAbi(act.data) {
          case None => return;
          case Some(sa) =>
            match codec.abiDef(sa.abi) {
              case Some(text) =>
                json := text;
                ApplyOne(View(), StoreAbi(sa.account, text));
                if o.storeAbi {
                  accounts := Upsert(accounts, sa.account, Some(text));
                }
                return;
              case None =>
            }
        }
      }
      if o.lookup {
        var abi := Model.SelectAbi(accounts, act.account);
        if abi != "" {
          match codec.decode(abi, act) {
            case None =>
            case Some(v) => json := codec.toJson(v);
          }
        }
      }
    }

    /** One loop over the keys of a permission; `budget` inserts succeed before one throws. */
    method InsertPermission(name: Name, publicKeys: seq<string>, permission: string, budget: nat) returns (done: nat)
      modifies this`keys
      ensures done == if |publicKeys| <= budget then |publicKeys| else budget
      ensures keys == old(keys) + Model.KeyRows(name, publicKeys, permission)[..done]
    {
      done := 0;
      for i := 0 to |publicKeys|
        invariant done == i <= budget
        invariant keys == old(keys) + Model.KeyRows(name, publicKeys, permission)[..done]
      {
        if done == budget {
          return;
        }
        keys := keys + [KeyRow(name, publicKeys[i], permission)];
        done := done + 1;
      }
    }

    /** The owner keys, then the active keys, of a new account. */
    method InsertKeys(na: Model.NewAccount, budget: nat)
      modifies this`keys
      ensures View() == ApplyAll(old(View()), Model.AddKeys(Model.Prefix(Model.AllKeyRows(na), budget)))
    {
      hide ApplyAll;
      ghost var owners := Model.KeyRows(na.name, na.ownerKeys, "owner");
      ghost var actives := Model.KeyRows(na.name, na.activeKeys, "active");
      ghost var before := keys;
      KeysApplied(View(), Model.Prefix(owners + actives, budget));
      PrefixOfTwo(owners, actives, budget);
      var done := InsertPermission(na.name, na.ownerKeys, "owner", budget);
      if done == |na.ownerKeys| {
        assert owners[..done] == owners;
        done := InsertPermission(na.name, na.activeKeys, "active", budget - done);
        assert before + owners + actives[..done] == before + (owners + actives[..done]);
      }
    }

    method ParseSystem(v: Model.Variant, act: Action, o: Model.Outcomes)
      modifies this`accounts, this`keys, this`votes
      ensures View() == ApplyAll(old(View()), Model.SystemStmts(codec, v, act, o))
    {
      if act.name == "newaccount" {
        match codec.newAccount(act.data) {
          case None =>
          case Some(na) =>
            if o.write {
              ApplyOne(View(), TouchAccount(na.name));
              ghost var rows := Model.Prefix(Model.AllKeyRows(na), o.keyInserts);
              ApplyAllConcat(View(), [TouchAccount(na.name)], Model.AddKeys(rows));
              accounts := InsertIfAbsent(accounts, na.name, None);
              InsertKeys(na, o.keyInserts);
            }
        }
      } else if act.name == "voteproducer" {
        var voter, proxy := Model.NameField(codec, v, "voter"), Model.NameField(codec, v, "proxy");
        var producers := Model.Field(v, "producers");
        if voter.None? || proxy.None? || producers.None? {
          return;
        }
        var vote := Vote(proxy.value, codec.toJson(producers.value));
        ApplyOne(View(), CastVote(voter.value, vote));
        if o.write {
          votes := Upsert(votes, voter.value, vote);
        }
      }
    }

    method ParseMsig(v: Model.Variant, act: Action, o: Model.Outcomes)
      modifies this`proposals
      ensures View() == ApplyAll(old(View()), Model.MsigStmts(codec, v, act, o))
    {
      var proposer, name := Model.NameField(codec, v, "proposer"), Model.NameField(codec, v, "proposal_name");
      if act.name == "propose" {
        var requested := Model.Field(v, "requested");
        if proposer.None? || name.None? || requested.None? {
          return;
        }
        var key := ProposalKey(proposer.value, name.value);
        ApplyOne(View(), Propose(key, codec.toJson(requested.value)));
        if o.write {
          proposals := Upsert(proposals, key, codec.toJson(requested.value));
        }
      } else if act.name == "cancel" || act.name == "exec" {
        if proposer.None? || name.None? {
          return;
        }
        var key := ProposalKey(proposer.value, name.value);
        ApplyOne(View(), DropProposal(key));
        if o.write {
          proposals := Delete(proposals, key);
        }
      }
    }

    method ParseToken(v: Model.Variant, act: Action, o: Model.Outcomes)
      modifies this`assets
      ensures View() == ApplyAll(old(View()), Model.TokenStmts(codec, v, act, o))
    {
      if act.name == "create" {
        var issuer, supply := Model.NameField(codec, v, "issuer"), Model.Field(v, "maximum_supply");
        if issuer.None? || supply.None? {
          return;
        }
        var max := codec.asAsset(supply.value);
        if max.None? || issuer.value == "" || max.value.amount <= 0 {
          return;
        }
        var key := AssetKey(max.value.symbol, act.account);
        var info := AssetInfo(0, max.value.amount, max.value.precision, issuer.value);
        ApplyOne(View(), CreateAsset(key, info));
        if o.write {
          assets := Replace(assets, key, info);
        }
      }
    }

    method ParseActions(act: Action, o: Model.Outcomes)
      modifies this`accounts, this`keys, this`votes, this`proposals, this`assets
      ensures var abi := Model.SelectAbi(old(accounts), act.account);
              View() == ApplyAll(old(View()), Model.ParseActions(codec, abi, act, o))
    {
      if !o.lookupAgain {
        return;
      }
      var abi := Model.SelectAbi(accounts, act.account);
      if abi == "" {
        if act.account != SYSTEM {
          return;
        }
        abi := codec.builtinAbi;
      }
      match codec.decode(abi, act) {
        case None =>
        case Some(v) =>
          if act.account == SYSTEM {
            ParseSystem(v, act, o);
          } else if act.account == MSIG {
            ParseMsig(v, act, o);
          } else {
            ParseToken(v, act, o);
          }
      }
    }

    /** `add`: false when the filter does not name the action; an exception leaves `threw` set. */
    method Add(job: Job) returns (matched: bool, threw: bool)
      modifies this
      ensures matched == Matched(filter, job.act) && leases == old(leases)
      ensures !matched ==> View() == old(View()) && begun == old(begun) && !threw
      ensures matched ==>
                var r := Model.Add(codec, old(View()), Model.Attempt(job, fates(old(begun))));
                && View() == ApplyAll(old(View()), r.stmts)
                && begun == old(begun) + 1 && threw == r.threw
    {
      threw := false;
      if job.act.name !in filter {
        return false, false;
      }
      matched := true;
      var o := fates(begun);
      begun := begun + 1;
      ghost var before := View();
      ghost var abi := Model.SelectAbi(accounts, job.act.account);
      var json := AddData(job.act, o);
      ghost var p := Model.AddData(codec, abi, job.act, o);
      SecondLookup(before, p, job.act, o, codec);
      match codec.args(json) {
        case None => threw := true;
        case Some(args) =>
          ghost var mid := View();
          var record := Model.ToRecord(job, json, args);
          ghost var recorded := if o.record then [RecordAction(record)] else [];
          ApplyOne(View(), RecordAction(record));
          if o.record {
            actions := actions + [record];
          }
          assert View() == ApplyAll(mid, recorded);
          ghost var parsed := Model.ParseActions(codec, Model.SelectAbi(accounts, job.act.account), job.act, o);
          ParseActions(job.act, o);
          ApplyAllConcat(before, p.stmts, recorded);
          ApplyAllConcat(before, p.stmts + recorded, parsed);
      }
    }

    /** Walks the traces depth first and records as it goes. Interleaving the walk with the writes comes
        to the same as recording the frontier, up to the first action that throws. */
    method DfsInlineTraces(ts: seq<ActionTrace>, trxId: string, time: nat) returns (threw: bool)
      modifies this
      ensures Ran(View(), begun, threw)
              == RunJobs(codec, fates, old(View()), old(begun), ToJobs(Frontier(filter, ts), trxId, time))
      ensures leases == old(leases)
      decreases ts, 1
    {
      ghost var target := RunJobs(codec, fates, View(), begun, ToJobs(Frontier(filter, ts), trxId, time));
      assert ts[0..] == ts;
      for i := 0 to |ts|
        invariant target == RunJobs(codec, fates, View(), begun, ToJobs(Frontier(filter, ts[i..]), trxId, time))
        invariant leases == old(leases)
      {
        FrontierSplits(filter, ts, i, trxId, time);
        RunConcat(codec, fates, View(), begun, ToJobs(FrontierOf(filter, ts[i]), trxId, time),
                  ToJobs(Frontier(filter, ts[i + 1..]), trxId, time));
        var failed := DfsOne(ts[i], trxId, time);
        if failed {
          return true;
        }
      }
      return false;
    }

    /** The body of the traversal loop, for one trace. */
    method DfsOne(t: ActionTrace, trxId: string, time: nat) returns (threw: bool)
      modifies this
      ensures Ran(View(), begun, threw)
              == RunJobs(codec, fates, old(View()), old(begun), ToJobs(FrontierOf(filter, t), trxId, time))
      ensures leases == old(leases)
      decreases t
    {
      threw := false;
      if SelfReceived(t) {
        RunSingle(codec, fates, View(), begun, Job(t.act, trxId, time));
        assert Matched(filter, t.act) ==> ToJobs([t.act], trxId, time) == [Job(t.act, trxId, time)];
        var matched;
        matched, threw := Add(Job(t.act, trxId, time));
        if !matched && |t.inlineTraces| != 0 {
          threw := DfsInlineTraces(t.inlineTraces, trxId, time);
        }
      }
    }

    /** One session is leased, and everything fails with it. */
    method ConsumeTransactionTrace(t: TransactionTrace) returns (threw: bool)
      modifies this
      ensures Ran(View(), begun, threw) == ConsumeOne(env, old(View()), old(begun), old(leases), t)
      ensures leases == old(leases) + 1
    {
      var session := Lease();
      if !session {
        return true;
      }
      threw := DfsInlineTraces(t.actionTraces, t.id, t.blockTime);
    }

    /** The actions of one transaction of a block. */
    method AddAll(acts: seq<Action>, trxId: string, time: nat) returns (threw: bool)
      modifies this
      ensures Leased(Ran(View(), begun, threw), leases)
              == RunOffers(env, old(View()), old(begun), old(leases), ToJobs(acts, trxId, time))
    {
      hide Model.Add, ApplyAll, Matched;
      ghost var offers := ToJobs(acts, trxId, time);
      ghost var target := RunOffers(env, View(), begun, leases, offers);
      assert offers[0..] == offers;
      for i := 0 to |acts|
        invariant target == RunOffers(env, View(), begun, leases, offers[i..])
      {
        assert offers[i..][0] == Job(acts[i], trxId, time) && offers[i..][1..] == offers[i + 1..];
        var session := Lease();
        if !session {
          return true;
        }
        var _, failed := Add(Job(acts[i], trxId, time));
        if failed {
          return true;
        }
      }
      return false;
    }

    method ConsumeBlockState(b: BlockState) returns (threw: bool)
      modifies this
      ensures var end := RunOffers(env, old(View()), old(begun), old(leases), Offers(b.receipts, b.timestamp));
              && View() == end.ran.store && begun == end.ran.begun && leases == end.leases
              && threw == (end.ran.threw || Corrupt in b.receipts)
    {
      ghost var target := RunOffers(env, View(), begun, leases, Offers(b.receipts, b.timestamp));
      assert b.receipts[0..] == b.receipts;
      for i := 0 to |b.receipts|
        invariant target == RunOffers(env, View(), begun, leases, Offers(b.receipts[i..], b.timestamp))
        invariant Corrupt !in b.receipts[..i]
      {
        assert b.receipts[i..][1..] == b.receipts[i + 1..] && b.receipts[i..][0] == b.receipts[i];
        ghost var rest := Offers(b.receipts[i + 1..], b.timestamp);
        assert b.receipts[..i + 1] == b.receipts[..i] + [b.receipts[i]];
        match b.receipts[i] {
          case Corrupt =>
            assert b.receipts[i] in b.receipts;
            return true;
          case Hashed =>
          case Packed(id, acts) =>
            if LoneOnblock(acts) {
              assert [] + rest == rest;
            } else {
              OffersConcat(env, View(), begun, leases, ToJobs(acts, id, b.timestamp), rest);
              var failed := AddAll(acts, id, b.timestamp);
              if failed {
                return true;
              }
            }
        }
      }
      return false;
    }
  }

  lemma PrefixOfTwo<T>(xs: seq<T>, ys: seq<T>, n: nat)
    ensures Model.Prefix(xs + ys, n) == if n < |xs| then xs[..n] else xs + Model.Prefix(ys, n - |xs|)
  {
  }

  lemma FrontierSplits(filter: Filter, ts: seq<ActionTrace>, i: nat, trxId: string, time: nat)
    requires i < |ts|
    ensures ToJobs(Frontier(filter, ts[i..]), trxId, time)
            == ToJobs(FrontierOf(filter, ts[i]), trxId, time) + ToJobs(Frontier(filter, ts[i + 1..]), trxId, time)
  {
    assert ts[i..][1..] == ts[i + 1..] && ts[i..][0] == ts[i];
  }

  lemma {:induction false} KeysApplied(s: Store, rows: seq<KeyRow>)
    ensures ApplyAll(s, Model.AddKeys(rows)) == s.(keys := s.keys + rows)
  {
    if rows != [] {
      var n := |rows| - 1;
      KeysApplied(s, rows[..n]);
      assert Model.AddKeys(rows)[..n] == Model.AddKeys(rows[..n]);
      assert s.keys + rows == s.keys + rows[..n] + [rows[n]];
    }
  }

  /** What the second lookup of one `add` finds is the ABI the first step left. */
  lemma SecondLookup(s: Store, p: Model.Prepared, act: Action, o: Model.Outcomes, codec: Model.Codec)
    requires p == Model.AddData(codec, Model.SelectAbi(s.accounts, act.account), act, o)
    ensures Model.SelectAbi(ApplyAll(s, p.stmts).accounts, act.account)
            == Model.AbiAfter(p.stmts, Model.SelectAbi(s.accounts, act.account), act.account)
  {
    if p.stmts != [] {
      ApplyOne(s, p.stmts[0]);
      assert p.stmts == [p.stmts[0]];
      UpsertFinds(s.accounts, p.stmts[0].account, Some(p.stmts[0].abi), act.account);
    }
  }

  /** Upsert answers as expected even without assuming that keys are unique. */
  lemma UpsertFinds<K, V>(t: Table<K, V>, k: K, v: V, q: K)
    ensures Get(Upsert(t, k, v), q) == if q == k then Some(v) else Get(t, q)
  {
    var i := Find(t.rows, k);
    if i < |t.rows| {
      SameKeys(t.rows, Upsert(t, k, v).rows, q);
    } else {
      FindSnoc(t.rows, Row(t.nextId, k, v), q);
    }
  }
}
