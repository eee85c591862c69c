/**
 The tables the plugin writes, the SQL statements that change them, and what a log of successful
 statements leaves behind: every keyed table answers like a direct last-writer query over the log.
 */
module Statements {
  import opened Common
  import opened Traces
  import opened Tables

  /** The six names `system_contract_arg` extracts from an action's data. */
  datatype Args = Args(to: Name, from: Name, receiver: Name, payer: Name, name: Name, account: Name)

  datatype ActionRecord = ActionRecord(
    account: Name, createdAt: nat, name: Name, data: string, authorization: string, trxId: string, args: Args)

  datatype KeyRow = KeyRow(account: Name, publicKey: string, permission: string)
  datatype Vote = Vote(proxy: Name, producers: string)
  datatype ProposalKey = ProposalKey(proposer: Name, name: Name)
  datatype AssetKey = AssetKey(symbol: string, owner: Name)
  datatype AssetInfo = AssetInfo(supply: int, maxSupply: int, precision: nat, issuer: Name)

  datatype Store = Store(
    actions: seq<ActionRecord>,
    accounts: Table<Name, Option<string>>,
    keys: seq<KeyRow>,
    votes: Table<Name, Vote>,
    proposals: Table<ProposalKey, string>,
    assets: Table<AssetKey, AssetInfo>
  )

  const EMPTY_STORE := Store([], Empty(), [], Empty(), Empty(), Empty())

  ghost predicate ValidStore(s: Store) {
    Tables.Valid(s.accounts) && Tables.Valid(s.votes) && Tables.Valid(s.proposals) && Tables.Valid(s.assets)
  }

  /** The statements `actions_table` issues. */
  datatype Stmt =
    | RecordAction(record: ActionRecord)
    | StoreAbi(account: Name, abi: string)
    | TouchAccount(account: Name)
    | AddKey(row: KeyRow)
    | CastVote(voter: Name, vote: Vote)
    | Propose(key: ProposalKey, requested: string)
    | DropProposal(key: ProposalKey)
    | CreateAsset(asset: AssetKey, info: AssetInfo)

  function Apply(s: Store, st: Stmt): Store {
    match st
    case RecordAction(r) => s.(actions := s.actions + [r])
    case StoreAbi(a, abi) => s.(accounts := Upsert(s.accounts, a, Some(abi)))
    case TouchAccount(a) => s.(accounts := InsertIfAbsent(s.accounts, a, None))
    case AddKey(row) => s.(keys := s.keys + [row])
    case CastVote(v, vote) => s.(votes := Upsert(s.votes, v, vote))
    case Propose(k, req) => s.(proposals := Upsert(s.proposals, k, req))
    case DropProposal(k) => s.(proposals := Delete(s.proposals, k))
    case CreateAsset(k, info) => s.(assets := Replace(s.assets, k, info))
  }

  function ApplyAll(s: Store, stmts: seq<Stmt>): Store {
    if stmts == [] then s
    else Apply(ApplyAll(s, stmts[..|stmts| - 1]), stmts[|stmts| - 1])
  }

  lemma {:induction false} ApplyAllConcat(s: Store, xs: seq<Stmt>, ys: seq<Stmt>)
    ensures ApplyAll(s, xs + ys) == ApplyAll(ApplyAll(s, xs), ys)
  {
    if ys == [] {
      assert xs + ys == xs;
    } else {
      var n := |ys| - 1;
      assert (xs + ys)[..|xs + ys| - 1] == xs + ys[..n];
      ApplyAllConcat(s, xs, ys[..n]);
    }
  }

  lemma ApplyOne(s: Store, st: Stmt)
    ensures ApplyAll(s, [st]) == Apply(s, st)
  {
    assert [st][..0] == [];
    assert ApplyAll(s, []) == s;
  }

  lemma ApplyKeepsValid(s: Store, st: Stmt)
    requires ValidStore(s)
    ensures ValidStore(Apply(s, st))
  {
    match st
    case StoreAbi(a, abi) => UpsertKept(s.accounts, a, Some(abi));
    case TouchAccount(a) => InsertIfAbsentKept(s.accounts, a, None);
    case CastVote(v, vote) => UpsertKept(s.votes, v, vote);
    case Propose(k, req) => UpsertKept(s.proposals, k, req);
    case DropProposal(k) => DeleteKept(s.proposals, k);
    case CreateAsset(k, info) => ReplaceKept(s.assets, k, info);
    case _ =>
  }

  lemma {:induction false} LogKeepsValid(s: Store, stmts: seq<Stmt>)
    requires ValidStore(s)
    ensures ValidStore(ApplyAll(s, stmts))
  {
    if stmts != [] {
      LogKeepsValid(s, stmts[..|stmts| - 1]);
      ApplyKeepsValid(ApplyAll(s, stmts[..|stmts| - 1]), stmts[|stmts| - 1]);
    }
  }

  // ---------------------------------------------------------------------------------------------
  // Questions to the keyed tables
  // ---------------------------------------------------------------------------------------------

  datatype Query =
    | VoteOf(voter: Name)
    | ProposalOf(proposal: ProposalKey)
    | AssetOf(asset: AssetKey)
    | AbiOf(owner: Name)
    | AccountOf(account: Name)

  datatype Answer =
    | Missing
    | AVote(vote: Vote)
    | AProposal(requested: string)
    | AnAsset(info: AssetInfo)
    | AnAbi(abi: string)
    | Present

  function Ask(s: Store, q: Query): Answer {
    match q
    case VoteOf(v) => (match Get(s.votes, v) case None => Missing case Some(x) => AVote(x))
    case ProposalOf(k) => (match Get(s.proposals, k) case None => Missing case Some(x) => AProposal(x))
    case AssetOf(k) => (match Get(s.assets, k) case None => Missing case Some(x) => AnAsset(x))
    case AbiOf(a) =>
      var row: Option<Option<string>> := Get(s.accounts, a);
      if row.Some? && row.value.Some? then AnAbi(row.value.value) else Missing
    case AccountOf(a) => (match Get(s.accounts, a) case None => Missing case Some(_) => Present)
  }

  /** The answer a statement by itself dictates, if it concerns the question at all. */
  function Dictates(st: Stmt, q: Query): Option<Answer> {
    match (st, q)
    case (CastVote(v, vote), VoteOf(w)) => if v == w then Some(AVote(vote)) else None
    case (Propose(k, req), ProposalOf(j)) => if k == j then Some(AProposal(req)) else None
    case (DropProposal(k), ProposalOf(j)) => if k == j then Some(Missing) else None
    case (CreateAsset(k, info), AssetOf(j)) => if k == j then Some(AnAsset(info)) else None
    case (StoreAbi(a, abi), AbiOf(b)) => if a == b then Some(AnAbi(abi)) else None
    case (StoreAbi(a, _), AccountOf(b)) => if a == b then Some(Present) else None
    case (TouchAccount(a), AccountOf(b)) => if a == b then Some(Present) else None
    case _ => None
  }

  function Answered(s: Store, st: Stmt, q: Query): Answer {
    match Dictates(st, q)
    case Some(a) => a
    case None => Ask(s, q)
  }

  lemma StoreAbiAnswers(s: Store, a: Name, abi: string, q: Query)
    requires Tables.Valid(s.accounts)
    ensures Ask(Apply(s, StoreAbi(a, abi)), q) == Answered(s, StoreAbi(a, abi), q)
  {
    hide Upsert, Get;
    UpsertKept(s.accounts, a, Some(abi));
  }

  lemma TouchAnswers(s: Store, a: Name, q: Query)
    requires Tables.Valid(s.accounts)
    ensures Ask(Apply(s, TouchAccount(a)), q) == Answered(s, TouchAccount(a), q)
  {
    hide InsertIfAbsent, Get;
    InsertIfAbsentKept(s.accounts, a, None);
  }

  lemma VotesAnswer(s: Store, st: Stmt, q: Query)
    requires Tables.Valid(s.votes) && st.CastVote?
    ensures Ask(Apply(s, st), q) == Answered(s, st, q)
  {
    UpsertKept(s.votes, st.voter, st.vote);
  }

  lemma ProposeAnswers(s: Store, k: ProposalKey, req: string, q: Query)
    requires Tables.Valid(s.proposals)
    ensures Ask(Apply(s, Propose(k, req)), q) == Answered(s, Propose(k, req), q)
  {
    UpsertKept(s.proposals, k, req);
  }

  lemma DropAnswers(s: Store, k: ProposalKey, q: Query)
    requires Tables.Valid(s.proposals)
    ensures Ask(Apply(s, DropProposal(k)), q) == Answered(s, DropProposal(k), q)
  {
    hide Delete, Get;
    DeleteKept(s.proposals, k);
  }

  lemma AssetsAnswer(s: Store, st: Stmt, q: Query)
    requires Tables.Valid(s.assets) && st.CreateAsset?
    ensures Ask(Apply(s, st), q) == Answered(s, st, q)
  {
    ReplaceKept(s.assets, st.asset, st.info);
  }

  lemma ApplyAnswers(s: Store, st: Stmt, q: Query)
    requires ValidStore(s)
    ensures Ask(Apply(s, st), q) == Answered(s, st, q)
  {
    if st.StoreAbi? {
      StoreAbiAnswers(s, st.account, st.abi, q);
    } else if st.TouchAccount? {
      TouchAnswers(s, st.account, q);
    } else if st.CastVote? {
      VotesAnswer(s, st, q);
    } else if st.Propose? {
      ProposeAnswers(s, st.key, st.requested, q);
    } else if st.DropProposal? {
      DropAnswers(s, st.key, q);
    } else if st.CreateAsset? {
      AssetsAnswer(s, st, q);
    }
  }

  /** Statement `i` is the last one of the log that concerns `q`. */
  ghost predicate LastWrite(stmts: seq<Stmt>, i: nat, q: Query) {
    && i < |stmts| && Dictates(stmts[i], q).Some?
    && forall j :: i < j < |stmts| ==> Dictates(stmts[j], q).None?
  }

  ghost predicate Untouched(stmts: seq<Stmt>, q: Query) {
    forall j :: 0 <= j < |stmts| ==> Dictates(stmts[j], q).None?
  }

  /** The position of the last statement that concerns `q`, or -1. */
  function LastIndex(stmts: seq<Stmt>, q: Query): (i: int)
    ensures -1 <= i < |stmts|
    ensures i == -1 ==> Untouched(stmts, q)
    ensures i >= 0 ==> LastWrite(stmts, i, q)
  {
    if stmts == [] then -1
    else if Dictates(stmts[|stmts| - 1], q).Some? then |stmts| - 1
    else LastIndex(stmts[..|stmts| - 1], q)
  }

  /** The incremental tables equal the direct query: whatever the log, each key holds what the last
      successful statement about it dictates, and what it held before if there is none. */
  lemma {:induction false} TablesAreLastWrites(s: Store, stmts: seq<Stmt>, q: Query)
    requires ValidStore(s)
    ensures forall i: nat :: LastWrite(stmts, i, q) ==> Some(Ask(ApplyAll(s, stmts), q)) == Dictates(stmts[i], q)
    ensures Untouched(stmts, q) ==> Ask(ApplyAll(s, stmts), q) == Ask(s, q)
    ensures Untouched(stmts, q) || exists i: nat :: LastWrite(stmts, i, q)
  {
    var at := LastIndex(stmts, q);
    assert at >= 0 ==> LastWrite(stmts, at, q);
    if stmts != [] {
      var n := |stmts| - 1;
      var pre := stmts[..n];
      TablesAreLastWrites(s, pre, q);
      LogKeepsValid(s, pre);
      ApplyAnswers(ApplyAll(s, pre), stmts[n], q);
      forall i: nat | LastWrite(stmts, i, q)
        ensures if i < n then LastWrite(pre, i, q) && Dictates(stmts[n], q).None? else i == n
      {
      }
    }
  }

  /** Both directions in one: which answer the tables give. */
  lemma AnswerExactly(s: Store, stmts: seq<Stmt>, q: Query, a: Answer)
    requires ValidStore(s)
    ensures Ask(ApplyAll(s, stmts), q) == a <==>
            (exists i: nat :: LastWrite(stmts, i, q) && Dictates(stmts[i], q) == Some(a))
            || (Untouched(stmts, q) && Ask(s, q) == a)
  {
    hide ApplyAll, Ask, Dictates;
    TablesAreLastWrites(s, stmts, q);
  }

  /** The same as a function: what the tables answer after `stmts`, without applying them. */
  function AnswerAfter(s: Store, stmts: seq<Stmt>, q: Query): Answer {
    var i := LastIndex(stmts, q);
    if i < 0 then Ask(s, q) else Dictates(stmts[i], q).value
  }

  lemma AnswerIsLastWrite(s: Store, stmts: seq<Stmt>, q: Query)
    requires ValidStore(s)
    ensures Ask(ApplyAll(s, stmts), q) == AnswerAfter(s, stmts, q)
  {
    TablesAreLastWrites(s, stmts, q);
    var i := LastIndex(stmts, q);
    assert i < 0 || LastWrite(stmts, i, q);
  }

  predicate AboutProposal(st: Stmt, k: ProposalKey) {
    (st.Propose? || st.DropProposal?) && st.key == k
  }

  ghost predicate LastPropose(stmts: seq<Stmt>, i: nat, k: ProposalKey, requested: string) {
    && i < |stmts| && stmts[i] == Propose(k, requested)
    && forall j :: i < j < |stmts| ==> !AboutProposal(stmts[j], k)
  }

  lemma LastProposeIsLastWrite(stmts: seq<Stmt>, i: nat, k: ProposalKey, requested: string)
    ensures LastPropose(stmts, i, k, requested) <==>
            LastWrite(stmts, i, ProposalOf(k)) && Dictates(stmts[i], ProposalOf(k)) == Some(AProposal(requested))
  {
    forall j | 0 <= j < |stmts| ensures AboutProposal(stmts[j], k) <==> Dictates(stmts[j], ProposalOf(k)).Some? {}
  }

  /** The case of proposals in full: a row exists exactly when the last propose, cancel or exec of its
      key is a propose, and then it carries that propose's approvals, if there was none to begin with. */
  lemma ProposalIsLastPropose(s: Store, stmts: seq<Stmt>, k: ProposalKey, requested: string)
    requires ValidStore(s) && Get(s.proposals, k) == None
    ensures Get(ApplyAll(s, stmts).proposals, k) == Some(requested) <==>
            exists i :: LastPropose(stmts, i, k, requested)
  {
    var q := ProposalOf(k);
    TablesAreLastWrites(s, stmts, q);
    forall i: nat
      ensures LastPropose(stmts, i, k, requested) <==>
              LastWrite(stmts, i, q) && Dictates(stmts[i], q) == Some(AProposal(requested))
    {
      LastProposeIsLastWrite(stmts, i, k, requested);
    }
  }

  // ---------------------------------------------------------------------------------------------
  // Listing order
  // ---------------------------------------------------------------------------------------------

  /** Rows untouched by the log come first and keep their order; the others follow by position. */
  predicate Ordered(i: int, j: int) {
    i < j || i == j == -1
  }

  ghost predicate AssetsOrdered(t: Table<AssetKey, AssetInfo>, stmts: seq<Stmt>) {
    forall a, b :: 0 <= a < b < |t.rows| ==>
      Ordered(LastIndex(stmts, AssetOf(t.rows[a].key)), LastIndex(stmts, AssetOf(t.rows[b].key)))
  }

  lemma {:induction false} WithoutKeepsOrder<V>(rows: seq<Row<AssetKey, V>>, k: AssetKey, rank: AssetKey -> int)
    requires forall a, b :: 0 <= a < b < |rows| ==> Ordered(rank(rows[a].key), rank(rows[b].key))
    ensures forall a, b :: 0 <= a < b < |Without(rows, k)| ==>
              Ordered(rank(Without(rows, k)[a].key), rank(Without(rows, k)[b].key))
  {
    if rows != [] {
      WithoutKeepsOrder(rows[1..], k, rank);
      var rest := Without(rows[1..], k);
      forall b | 0 <= b < |rest| ensures Ordered(rank(rows[0].key), rank(rest[b].key)) {
        assert rest[b] in rows[1..];
      }
    }
  }

  /** Assets ordered by id appear in the order of the last successful create of their key. */
  lemma {:induction false} AssetsListedByLastCreate(s: Store, stmts: seq<Stmt>)
    ensures AssetsOrdered(ApplyAll(s, stmts).assets, stmts)
  {
    if stmts != [] {
      var n := |stmts| - 1;
      var pre := stmts[..n];
      hide LastIndex, Dictates, Replace;
      AssetsListedByLastCreate(s, pre);
      assert stmts == pre + [stmts[n]];
      var before := ApplyAll(s, pre).assets;
      if stmts[n].CreateAsset? {
        CreateKeepsOrder(before, pre, stmts[n].asset, stmts[n].info);
      } else {
        forall key ensures LastIndex(stmts, AssetOf(key)) == LastIndex(pre, AssetOf(key)) {
          LastIndexSnoc(pre, stmts[n], AssetOf(key));
        }
      }
    }
  }

  lemma LastIndexSnoc(pre: seq<Stmt>, st: Stmt, q: Query)
    ensures LastIndex(pre + [st], q) == if Dictates(st, q).Some? then |pre| else LastIndex(pre, q)
  {
    assert (pre + [st])[..|pre|] == pre;
  }

  /** A created asset goes behind all others, wherever it was before. */
  lemma CreateKeepsOrder(t: Table<AssetKey, AssetInfo>, pre: seq<Stmt>, k: AssetKey, info: AssetInfo)
    requires AssetsOrdered(t, pre)
    ensures AssetsOrdered(Replace(t, k, info), pre + [CreateAsset(k, info)])
  {
    var kept, u := Without(t.rows, k), Replace(t, k, info);
    WithoutKeepsOrder(t.rows, k, key => LastIndex(pre, AssetOf(key)));
    forall a | 0 <= a < |u.rows|
      ensures LastIndex(pre + [CreateAsset(k, info)], AssetOf(u.rows[a].key)) ==
              if a < |kept| then LastIndex(pre, AssetOf(kept[a].key)) else |pre|
    {
      LastIndexSnoc(pre, CreateAsset(k, info), AssetOf(u.rows[a].key));
      assert a < |kept| ==> u.rows[a] == kept[a];
    }
  }

  /** When the row that holds proposal `k` was created: the position of the propose that inserted it, -1 if
      it was there from the start, nothing if there is no such row. */
  function Born(live: bool, stmts: seq<Stmt>, k: ProposalKey): (i: Option<int>)
    ensures i.Some? ==> -1 <= i.value < |stmts|
  {
    if stmts == [] then if live then Some(-1) else None
    else
      var n := |stmts| - 1;
      var before := Born(live, stmts[..n], k);
      if stmts[n].DropProposal? && stmts[n].key == k then None
      else if stmts[n].Propose? && stmts[n].key == k && before.None? then Some(n)
      else before
  }

  predicate Drops(st: Stmt, k: ProposalKey) {
    st.DropProposal? && st.key == k
  }

  predicate Proposes(st: Stmt, k: ProposalKey) {
    st.Propose? && st.key == k
  }

  /** Proposal `k` is deleted strictly between positions `lo` and `hi`. */
  ghost predicate DroppedIn(stmts: seq<Stmt>, k: ProposalKey, lo: int, hi: int) {
    exists m :: lo < m < hi && 0 <= m < |stmts| && Drops(stmts[m], k)
  }

  lemma DroppedInSnoc(pre: seq<Stmt>, st: Stmt, k: ProposalKey, lo: int, hi: int)
    requires hi <= |pre| + 1
    ensures DroppedIn(pre + [st], k, lo, hi) <==>
            DroppedIn(pre, k, lo, hi) || (lo < |pre| < hi && Drops(st, k))
  {
    var stmts := pre + [st];
    if m :| lo < m < hi && 0 <= m < |pre| && Drops(pre[m], k) {
      assert Drops(stmts[m], k);
    }
    if lo < |pre| < hi && Drops(st, k) {
      assert Drops(stmts[|pre|], k);
    }
  }

  /** Said without replaying the log: `i` is the first propose of `k` since its last deletion. */
  ghost predicate FirstSinceDrop(live: bool, stmts: seq<Stmt>, k: ProposalKey, i: nat) {
    && i < |stmts| && Proposes(stmts[i], k)
    && !DroppedIn(stmts, k, i, |stmts|)
    && NoneLive(live, stmts, k, i)
  }

  /** After the first `n` statements the initial row and every propose of `k` have been deleted. */
  ghost predicate NoneLive(live: bool, stmts: seq<Stmt>, k: ProposalKey, n: nat)
    requires n <= |stmts|
  {
    && (live ==> DroppedIn(stmts, k, -1, n))
    && (forall j :: 0 <= j < n && Proposes(stmts[j], k) ==> DroppedIn(stmts, k, j, n))
  }

  lemma {:induction false} NotBornMeaning(live: bool, stmts: seq<Stmt>, k: ProposalKey)
    ensures Born(live, stmts, k).None? <==> NoneLive(live, stmts, k, |stmts|)
  {
    if stmts != [] {
      var n := |stmts| - 1;
      var pre, st := stmts[..n], stmts[n];
      assert stmts == pre + [st];
      NotBornMeaning(live, pre, k);
      forall lo: int ensures DroppedIn(stmts, k, lo, n + 1) <==> DroppedIn(pre, k, lo, n) || (lo < n && Drops(st, k)) {
        DroppedInSnoc(pre, st, k, lo, n + 1);
      }
      if Proposes(st, k) {
        assert Proposes(stmts[n], k) && !DroppedIn(pre, k, n, n);
      }
      if NoneLive(live, stmts, k, n + 1) && !Drops(st, k) {
        forall j | 0 <= j < n && Proposes(pre[j], k) ensures DroppedIn(pre, k, j, n) {
          assert Proposes(stmts[j], k);
        }
      }
    }
  }

  /** Birth by replaying the log is the first propose since the last deletion. */
  lemma {:induction false} BornMeaning(live: bool, stmts: seq<Stmt>, k: ProposalKey, i: nat)
    ensures Born(live, stmts, k) == Some(i) <==> FirstSinceDrop(live, stmts, k, i)
  {
    if stmts != [] && i < |stmts| {
      var n := |stmts| - 1;
      var pre, st := stmts[..n], stmts[n];
      assert stmts == pre + [st];
      DroppedInSnoc(pre, st, k, i, n + 1);
      NoneLiveSnoc(live, pre, st, k, i);
      if i < n {
        BornMeaning(live, pre, k, i);
      } else {
        NotBornMeaning(live, pre, k);
      }
    }
  }

  lemma NoneLiveSnoc(live: bool, pre: seq<Stmt>, st: Stmt, k: ProposalKey, n: nat)
    requires n <= |pre|
    ensures NoneLive(live, pre + [st], k, n) <==> NoneLive(live, pre, k, n)
  {
    forall lo: int ensures DroppedIn(pre + [st], k, lo, n) <==> DroppedIn(pre, k, lo, n) {
      DroppedInSnoc(pre, st, k, lo, n);
    }
    assert forall j :: 0 <= j < n ==> (pre + [st])[j] == pre[j];
  }

  /** Where the row of `k` was born, in a log that starts from `s`. */
  function BornFrom(s: Store, stmts: seq<Stmt>, k: ProposalKey): Option<int> {
    Born(Get(s.proposals, k).Some?, stmts, k)
  }

  predicate BornBefore(i: Option<int>, j: Option<int>) {
    i.Some? && j.Some? && Ordered(i.value, j.value)
  }

  ghost predicate ProposalsOrdered(s: Store, t: Table<ProposalKey, string>, stmts: seq<Stmt>) {
    && (forall k :: Get(t, k).Some? <==> BornFrom(s, stmts, k).Some?)
    && (forall a, b :: 0 <= a < b < |t.rows| ==>
          BornBefore(BornFrom(s, stmts, t.rows[a].key), BornFrom(s, stmts, t.rows[b].key)))
  }

  ghost function PlaceOf<T>(xs: seq<T>, x: T): (i: nat)
    requires x in xs
    ensures i < |xs| && xs[i] == x
  {
    var i :| 0 <= i < |xs| && xs[i] == x;
    i
  }

  lemma {:induction false} WithoutIsOrderedSubset<V>(rows: seq<Row<ProposalKey, V>>, k: ProposalKey, a: nat, b: nat)
      returns (i: nat, j: nat)
    requires a < b < |Without(rows, k)|
    ensures i < j < |rows| && rows[i] == Without(rows, k)[a] && rows[j] == Without(rows, k)[b]
  {
    hide Without;
    var tail := rows[1..];
    WithoutHead(rows, k);
    if rows[0].key == k {
      i, j := WithoutIsOrderedSubset(tail, k, a, b);
      i, j := i + 1, j + 1;
    } else if a > 0 {
      i, j := WithoutIsOrderedSubset(tail, k, a - 1, b - 1);
      i, j := i + 1, j + 1;
    } else {
      i, j := 0, 1 + PlaceOf(tail, Without(tail, k)[b - 1]);
    }
  }

  lemma ProposeBirth(s: Store, pre: seq<Stmt>, k: ProposalKey, req: string, q: ProposalKey)
    ensures BornFrom(s, pre + [Propose(k, req)], q) ==
            if q == k && BornFrom(s, pre, k).None? then Some(|pre|) else BornFrom(s, pre, q)
  {
    assert (pre + [Propose(k, req)])[..|pre|] == pre;
  }

  lemma NewProposalKeepsOrder(s: Store, t: Table<ProposalKey, string>, pre: seq<Stmt>, k: ProposalKey, req: string)
    requires Tables.Valid(t) && ProposalsOrdered(s, t, pre) && Get(t, k).None?
    ensures ProposalsOrdered(s, Upsert(t, k, req), pre + [Propose(k, req)])
  {
    UpsertKept(t, k, req);
    var u, stmts := Upsert(t, k, req), pre + [Propose(k, req)];
    forall q ensures Get(u, q).Some? <==> BornFrom(s, stmts, q).Some? { ProposeBirth(s, pre, k, req, q); }
    forall a, b | 0 <= a < b < |u.rows|
      ensures BornBefore(BornFrom(s, stmts, u.rows[a].key), BornFrom(s, stmts, u.rows[b].key))
    {
      FindUnique(t, a);
      ProposeBirth(s, pre, k, req, u.rows[a].key);
      ProposeBirth(s, pre, k, req, u.rows[b].key);
      assert Get(t, t.rows[a].key).Some?;
    }
  }

  lemma KnownProposalKeepsOrder(s: Store, t: Table<ProposalKey, string>, pre: seq<Stmt>, k: ProposalKey, req: string)
    requires Tables.Valid(t) && ProposalsOrdered(s, t, pre) && Get(t, k).Some?
    ensures ProposalsOrdered(s, Upsert(t, k, req), pre + [Propose(k, req)])
  {
    UpsertKept(t, k, req);
    var u, stmts := Upsert(t, k, req), pre + [Propose(k, req)];
    forall q ensures BornFrom(s, stmts, q) == BornFrom(s, pre, q) { ProposeBirth(s, pre, k, req, q); }
    assert forall a :: 0 <= a < |t.rows| ==> u.rows[a].key == t.rows[a].key;
  }

  lemma DropKeepsOrder(s: Store, t: Table<ProposalKey, string>, pre: seq<Stmt>, k: ProposalKey)
    requires Tables.Valid(t) && ProposalsOrdered(s, t, pre)
    ensures ProposalsOrdered(s, Delete(t, k), pre + [DropProposal(k)])
  {
    var stmts := pre + [DropProposal(k)];
    assert stmts[..|pre|] == pre;
    DeleteKept(t, k);
    forall q ensures BornFrom(s, stmts, q) == if q == k then None else BornFrom(s, pre, q) {}
    var rows := Without(t.rows, k);
    forall a, b | 0 <= a < b < |rows|
      ensures BornBefore(BornFrom(s, stmts, rows[a].key), BornFrom(s, stmts, rows[b].key))
    {
      var i, j := WithoutIsOrderedSubset(t.rows, k, a, b);
      assert rows[a].key != k && rows[b].key != k;
    }
  }

  lemma OtherKeepsOrder(s: Store, t: Table<ProposalKey, string>, pre: seq<Stmt>, st: Stmt)
    requires ProposalsOrdered(s, t, pre) && !st.Propose? && !st.DropProposal?
    ensures ProposalsOrdered(s, t, pre + [st])
  {
    assert (pre + [st])[..|pre|] == pre;
    forall q ensures BornFrom(s, pre + [st], q) == BornFrom(s, pre, q) {}
  }

  lemma InitialOrder(s: Store)
    requires Tables.Valid(s.proposals)
    ensures ProposalsOrdered(s, s.proposals, [])
  {
    forall a | 0 <= a < |s.proposals.rows| ensures BornFrom(s, [], s.proposals.rows[a].key) == Some(-1) {
      FindUnique(s.proposals, a);
    }
  }

  lemma ProposeStep(s: Store, t: Table<ProposalKey, string>, pre: seq<Stmt>, k: ProposalKey, req: string)
    requires Tables.Valid(t) && ProposalsOrdered(s, t, pre)
    ensures ProposalsOrdered(s, Upsert(t, k, req), pre + [Propose(k, req)])
  {
    if Get(t, k).None? {
      NewProposalKeepsOrder(s, t, pre, k, req);
    } else {
      KnownProposalKeepsOrder(s, t, pre, k, req);
    }
  }

  /** The proposals table after one more statement. */
  function ProposalsAfter(t: Table<ProposalKey, string>, st: Stmt): Table<ProposalKey, string> {
    match st
    case Propose(k, req) => Upsert(t, k, req)
    case DropProposal(k) => Delete(t, k)
    case _ => t
  }

  lemma ProposalStep(s: Store, t: Table<ProposalKey, string>, pre: seq<Stmt>, st: Stmt)
    requires Tables.Valid(t) && ProposalsOrdered(s, t, pre)
    ensures ProposalsOrdered(s, ProposalsAfter(t, st), pre + [st])
  {
    match st
    case Propose(k, req) => ProposeStep(s, t, pre, k, req);
    case DropProposal(k) => DropKeepsOrder(s, t, pre, k);
    case _ => OtherKeepsOrder(s, t, pre, st);
  }

  /** Proposals ordered by id appear in the order of the first propose since their key's last deletion. */
  lemma {:induction false} ProposalsListedByBirth(s: Store, stmts: seq<Stmt>)
    requires ValidStore(s)
    ensures ProposalsOrdered(s, ApplyAll(s, stmts).proposals, stmts)
  {
    hide ProposalsOrdered, Apply;
    if stmts == [] {
      InitialOrder(s);
    } else {
      var n := |stmts| - 1;
      var t := ApplyAll(s, stmts[..n]);
      ProposalsListedByBirth(s, stmts[..n]);
      LogKeepsValid(s, stmts[..n]);
      ProposalStep(s, t.proposals, stmts[..n], stmts[n]);
      ProposalsApplied(t, stmts[n]);
      assert stmts[..n] + [stmts[n]] == stmts;
    }
  }

  lemma ProposalsApplied(s: Store, st: Stmt)
    ensures Apply(s, st).proposals == ProposalsAfter(s.proposals, st)
  {
  }

  // ---------------------------------------------------------------------------------------------
  // Replaying a log twice
  // ---------------------------------------------------------------------------------------------

  function RecordOf(st: Stmt): seq<ActionRecord> {
    if st.RecordAction? then [st.record] else []
  }

  function Records(stmts: seq<Stmt>): seq<ActionRecord> {
    if stmts == [] then [] else Records(stmts[..|stmts| - 1]) + RecordOf(stmts[|stmts| - 1])
  }

  function KeyOf(st: Stmt): seq<KeyRow> {
    if st.AddKey? then [st.row] else []
  }

  function KeysAdded(stmts: seq<Stmt>): seq<KeyRow> {
    if stmts == [] then [] else KeysAdded(stmts[..|stmts| - 1]) + KeyOf(stmts[|stmts| - 1])
  }

  lemma {:induction false} LogAppends(s: Store, stmts: seq<Stmt>)
    ensures ApplyAll(s, stmts).actions == s.actions + Records(stmts)
    ensures ApplyAll(s, stmts).keys == s.keys + KeysAdded(stmts)
  {
    if stmts != [] {
      var n := |stmts| - 1;
      LogAppends(s, stmts[..n]);
      ApplyAppends(ApplyAll(s, stmts[..n]), stmts[n]);
      Associates(s.actions, Records(stmts[..n]), RecordOf(stmts[n]));
      Associates(s.keys, KeysAdded(stmts[..n]), KeyOf(stmts[n]));
    }
  }

  lemma ApplyAppends(s: Store, st: Stmt)
    ensures Apply(s, st).actions == s.actions + RecordOf(st)
    ensures Apply(s, st).keys == s.keys + KeyOf(st)
  {
  }

  /** Both passes over a log, when the second issues other statements than the first: the second leaves every
      answer as it was exactly when each key it concerns already answers what it dictates. */
  lemma SecondStatements(s: Store, first: seq<Stmt>, second: seq<Stmt>)
    requires ValidStore(s)
    ensures var once := ApplyAll(s, first);
            var twice := ApplyAll(once, second);
            && ((forall q :: Ask(twice, q) == Ask(once, q)) <==>
                (forall q :: Untouched(second, q) || AnswerAfter(s, second, q) == AnswerAfter(s, first, q)))
            && (twice.actions == once.actions + Records(first) <==> Records(second) == Records(first))
            && (twice.keys == once.keys + KeysAdded(first) <==> KeysAdded(second) == KeysAdded(first))
  {
    var once := ApplyAll(s, first);
    var twice := ApplyAll(once, second);
    LogKeepsValid(s, first);
    forall q
      ensures Ask(twice, q) == Ask(once, q) <==>
              Untouched(second, q) || AnswerAfter(s, second, q) == AnswerAfter(s, first, q)
    {
      SecondAnswer(s, first, second, q);
    }
    LogAppends(once, second);
    Cancels(once.actions, Records(first), Records(second));
    Cancels(once.keys, KeysAdded(first), KeysAdded(second));
  }

  lemma SecondAnswer(s: Store, first: seq<Stmt>, second: seq<Stmt>, q: Query)
    requires ValidStore(s) && ValidStore(ApplyAll(s, first))
    ensures Ask(ApplyAll(ApplyAll(s, first), second), q) == Ask(ApplyAll(s, first), q) <==>
            Untouched(second, q) || AnswerAfter(s, second, q) == AnswerAfter(s, first, q)
  {
    hide ApplyAll, Ask;
    AnswerIsLastWrite(s, first, q);
    AnswerIsLastWrite(ApplyAll(s, first), second, q);
    var i := LastIndex(second, q);
    assert i >= 0 ==> LastWrite(second, i, q);
  }

  lemma Cancels<T>(a: seq<T>, x: seq<T>, y: seq<T>)
    ensures a + x == a + y <==> x == y
  {
    assert (a + x)[|a|..] == x && (a + y)[|a|..] == y;
  }

  /** The same statements a second time change no answer of a keyed table, and append every action record
      and every key row once more. */
  lemma StatementsTwice(s: Store, stmts: seq<Stmt>)
    requires ValidStore(s)
    ensures var once := ApplyAll(s, stmts);
            var twice := ApplyAll(once, stmts);
            && (forall q :: Ask(twice, q) == Ask(once, q))
            && twice.actions == s.actions + Records(stmts) + Records(stmts)
            && twice.keys == s.keys + KeysAdded(stmts) + KeysAdded(stmts)
  {
    var once := ApplyAll(s, stmts);
    LogKeepsValid(s, stmts);
    LogAppends(s, stmts);
    LogAppends(once, stmts);
    forall q ensures Ask(ApplyAll(once, stmts), q) == Ask(once, q) {
      TablesAreLastWrites(s, stmts, q);
      TablesAreLastWrites(once, stmts, q);
      if i: nat :| LastWrite(stmts, i, q) {}
    }
  }
}
