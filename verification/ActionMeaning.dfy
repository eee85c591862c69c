/**
 What the log of recorded actions means for the tables, said of the actions themselves: which action changes
 which row and to what, which row of the actions table it leaves, and which keys. The statements that
 `add` issues are proved to come to exactly this.
 */
module ActionMeaning {
  import opened ActionsTable
  import opened Common
  import opened Statements
  import opened Tables
  import opened Traces
  import Approvals

  // ---------------------------------------------------------------------------------------------
  // What one recorded action says
  // ---------------------------------------------------------------------------------------------

  /** The ABI a setabi action carries, if its data unpacks. */
  function CarriedAbi(codec: Codec, act: Action): Option<string> {
    if act.account == "eosio" && act.name == "setabi" && |act.data| > 0 && codec.setAbi(act.data).Some?
    then codec.abiDef(codec.setAbi(act.data).value.abi)
    else None
  }

  /** The data of the action can be read under the ABI its account has stored. */
  predicate Readable(codec: Codec, abi: string, act: Action, lookup: bool) {
    && |act.data| > 0 && lookup && abi != "" && codec.decode(abi, act).Some?
    && (act.account == "eosio" && act.name == "setabi" ==> codec.setAbi(act.data).Some?)
  }

  /** The text stored as the data of the action. */
  function DataOf(codec: Codec, abi: string, a: Attempt): string {
    var act := a.job.act;
    if CarriedAbi(codec, act).Some? then CarriedAbi(codec, act).value
    else if Readable(codec, abi, act, a.outcomes.lookup) then codec.toJson(codec.decode(abi, act).value)
    else "{}"
  }

  /** The data converts, and the row is accepted. */
  predicate LeavesRow(codec: Codec, abi: string, a: Attempt) {
    codec.args(DataOf(codec, abi, a)).Some? && a.outcomes.record
  }

  /** The row of the actions table. */
  predicate IsRow(codec: Codec, abi: string, a: Attempt, r: ActionRecord) {
    && r.account == a.job.act.account && r.name == a.job.act.name
    && r.createdAt == a.job.time && r.trxId == a.job.trxId
    && r.authorization == Approvals.PrintLevels(a.job.act.authorization)
    && r.data == DataOf(codec, abi, a) && codec.args(r.data) == Some(r.args)
  }

  /** What the action's data reads as when its effect is computed: under the stored ABI, or for the system account
      without one under the built-in ABI. */
  function Reading(codec: Codec, abi: string, act: Action): Option<Variant> {
    if abi != "" then codec.decode(abi, act)
    else if act.account == "eosio" then codec.decode(codec.builtinAbi, act)
    else None
  }

  predicate HasName(codec: Codec, v: Variant, field: string, name: Name) {
    v.Object? && field in v.fields && codec.asName(v.fields[field]) == Some(name)
  }

  predicate HasText(codec: Codec, v: Variant, field: string, text: string) {
    v.Object? && field in v.fields && codec.toJson(v.fields[field]) == text
  }

  predicate HasAsset(codec: Codec, v: Variant, field: string, asset: Asset) {
    v.Object? && field in v.fields && codec.asAsset(v.fields[field]) == Some(asset)
  }

  /** The action `account::name` has been recorded without a throw, reads as `v`, and the database took its
      write. */
  predicate TookEffect(codec: Codec, abi: string, a: Attempt, v: Variant) {
    && codec.args(DataOf(codec, abi, a)).Some? && a.outcomes.lookupAgain && a.outcomes.write
    && Reading(codec, abi, a.job.act) == Some(v)
  }

  predicate Proposes(codec: Codec, abi: string, a: Attempt, k: ProposalKey, requested: string) {
    a.job.act.account == "eosio.msig" && a.job.act.name == "propose"
    && Reading(codec, abi, a.job.act).Some?
    && var v := Reading(codec, abi, a.job.act).value;
       && TookEffect(codec, abi, a, v)
       && HasName(codec, v, "proposer", k.proposer) && HasName(codec, v, "proposal_name", k.name)
       && HasText(codec, v, "requested", requested)
  }

  predicate Drops(codec: Codec, abi: string, a: Attempt, k: ProposalKey) {
    a.job.act.account == "eosio.msig" && a.job.act.name in ["cancel", "exec"]
    && Reading(codec, abi, a.job.act).Some?
    && var v := Reading(codec, abi, a.job.act).value;
       && TookEffect(codec, abi, a, v)
       && HasName(codec, v, "proposer", k.proposer) && HasName(codec, v, "proposal_name", k.name)
  }

  predicate Votes(codec: Codec, abi: string, a: Attempt, voter: Name, vote: Vote) {
    a.job.act.account == "eosio" && a.job.act.name == "voteproducer"
    && Reading(codec, abi, a.job.act).Some?
    && var v := Reading(codec, abi, a.job.act).value;
       && TookEffect(codec, abi, a, v)
       && HasName(codec, v, "voter", voter) && HasName(codec, v, "proxy", vote.proxy)
       && HasText(codec, v, "producers", vote.producers)
  }

  predicate Creates(codec: Codec, abi: string, a: Attempt, k: AssetKey, info: AssetInfo) {
    a.job.act.account != "eosio" && a.job.act.account != "eosio.msig" && a.job.act.name == "create"
    && Reading(codec, abi, a.job.act).Some?
    && var v := Reading(codec, abi, a.job.act).value;
       && TookEffect(codec, abi, a, v)
       && HasName(codec, v, "issuer", info.issuer) && info.issuer != ""
       && HasAsset(codec, v, "maximum_supply", Asset(info.maxSupply, info.precision, k.symbol)) && info.maxSupply > 0
       && info.supply == 0 && k.owner == a.job.act.account
  }

  predicate Founds(codec: Codec, abi: string, a: Attempt, name: Name) {
    a.job.act.account == "eosio" && a.job.act.name == "newaccount"
    && Reading(codec, abi, a.job.act).Some?
    && TookEffect(codec, abi, a, Reading(codec, abi, a.job.act).value)
    && codec.newAccount(a.job.act.data).Some? && codec.newAccount(a.job.act.data).value.name == name
  }

  /** The ABI is stored before the data is converted, so also by an action that then throws. */
  predicate Installs(codec: Codec, a: Attempt, name: Name, abi: string) {
    CarriedAbi(codec, a.job.act) == Some(abi) && codec.setAbi(a.job.act.data).value.account == name
    && a.outcomes.storeAbi
  }

  /** The keys a recorded action adds: of a new account the owner keys and then the active keys, as many as the
      database takes. */
  function NewKeys(codec: Codec, abi: string, a: Attempt): seq<KeyRow> {
    if codec.newAccount(a.job.act.data).Some? && Founds(codec, abi, a, codec.newAccount(a.job.act.data).value.name) then
      var na := codec.newAccount(a.job.act.data).value;
      var all := |na.ownerKeys| + |na.activeKeys|;
      seq(if a.outcomes.keyInserts < all then a.outcomes.keyInserts else all, j requires 0 <= j < all =>
        if j < |na.ownerKeys| then KeyRow(na.name, na.ownerKeys[j], "owner")
        else KeyRow(na.name, na.activeKeys[j - |na.ownerKeys|], "active"))
    else []
  }

  // ---------------------------------------------------------------------------------------------
  // What `add` issues
  // ---------------------------------------------------------------------------------------------

  lemma DataMeaning(codec: Codec, abi: string, a: Attempt)
    ensures AddData(codec, abi, a.job.act, a.outcomes).json == DataOf(codec, abi, a)
  {
  }

  /** `add` throws exactly when its data does not convert. */
  lemma ThrowsExactly(codec: Codec, abi: string, a: Attempt)
    ensures AddResult(codec, abi, a).threw <==> codec.args(DataOf(codec, abi, a)).None?
  {
    DataMeaning(codec, abi, a);
  }

  /** The statements of an `add` in their three parts. */
  lemma AddParts(codec: Codec, abi: string, a: Attempt)
      returns (stored: seq<Stmt>, record: seq<Stmt>, parsed: seq<Stmt>)
    ensures AddResult(codec, abi, a).stmts == stored + record + parsed
    ensures stored == AddData(codec, abi, a.job.act, a.outcomes).stmts
    ensures |record| <= 1 && (|record| == 1 <==> LeavesRow(codec, abi, a))
    ensures |record| == 1 ==> record[0].RecordAction? && IsRow(codec, abi, a, record[0].record)
    ensures parsed == if codec.args(DataOf(codec, abi, a)).None? then []
                      else ParseActions(codec, AbiAfter(stored, abi, a.job.act.account), a.job.act, a.outcomes)
  {
    hide ParseActions, AddData, DataOf, Approvals.PrintLevels;
    DataMeaning(codec, abi, a);
    var p := AddData(codec, abi, a.job.act, a.outcomes);
    stored, record, parsed := p.stmts, [], [];
    match codec.args(p.json) {
      case None => assert stored + record + parsed == stored;
      case Some(args) =>
        record := if a.outcomes.record then [RecordAction(ToRecord(a.job, p.json, args))] else [];
        parsed := ParseActions(codec, AbiAfter(stored, abi, a.job.act.account), a.job.act, a.outcomes);
    }
  }

  // ---------------------------------------------------------------------------------------------
  // The actions table
  // ---------------------------------------------------------------------------------------------

  lemma {:induction false} RecordsConcat(xs: seq<Stmt>, ys: seq<Stmt>)
    ensures Records(xs + ys) == Records(xs) + Records(ys)
  {
    if ys == [] {
      assert xs + ys == xs;
    } else {
      var pre, last := ys[..|ys| - 1], ys[|ys| - 1];
      assert (xs + ys)[..|xs + ys| - 1] == xs + pre;
      RecordsConcat(xs, pre);
      Associates(Records(xs), Records(pre), RecordOf(last));
    }
  }

  lemma {:induction false} NoRecords(stmts: seq<Stmt>)
    requires forall st :: st in stmts ==> !st.RecordAction?
    ensures Records(stmts) == []
  {
    if stmts != [] {
      NoRecords(stmts[..|stmts| - 1]);
    }
  }

  lemma AddRecords(codec: Codec, abi: string, a: Attempt)
    ensures var rows := Records(AddResult(codec, abi, a).stmts);
            && |rows| == (if LeavesRow(codec, abi, a) then 1 else 0)
            && (|rows| == 1 ==> IsRow(codec, abi, a, rows[0]))
  {
    hide ParseActions, AddResult, IsRow, LeavesRow, DataOf;
    var stored, record, parsed := AddParts(codec, abi, a);
    NoRecordParsed(codec, AbiAfter(stored, abi, a.job.act.account), a.job.act, a.outcomes);
    NoRecords(stored);
    NoRecords(parsed);
    RecordsConcat(stored + record, parsed);
    RecordsConcat(stored, record);
    OneRecord(record);
    assert Records(stored + record + parsed) == Records(record);
  }

  lemma OneRecord(record: seq<Stmt>)
    requires |record| <= 1 && forall st :: st in record ==> st.RecordAction?
    ensures Records(record) == if record == [] then [] else [record[0].record]
  {
    if record != [] {
      assert record[..0] == [] && record == [record[0]];
      assert Records([]) == [];
    }
  }

  // ---------------------------------------------------------------------------------------------
  // The keyed tables
  // ---------------------------------------------------------------------------------------------

  predicate IsKeyed(st: Stmt) {
    !st.RecordAction? && !st.AddKey?
  }

  /** The statements about the tables with unique keys. */
  function Keyed(stmts: seq<Stmt>): seq<Stmt> {
    if stmts == [] then []
    else
      var last := stmts[|stmts| - 1];
      Keyed(stmts[..|stmts| - 1]) + if IsKeyed(last) then [last] else []
  }

  lemma {:induction false} KeyedConcat(xs: seq<Stmt>, ys: seq<Stmt>)
    ensures Keyed(xs + ys) == Keyed(xs) + Keyed(ys)
  {
    if ys == [] {
      assert xs + ys == xs;
    } else {
      var pre, last := ys[..|ys| - 1], ys[|ys| - 1];
      assert (xs + ys)[..|xs + ys| - 1] == xs + pre;
      KeyedConcat(xs, pre);
      Associates(Keyed(xs), Keyed(pre), if IsKeyed(last) then [last] else []);
    }
  }

  lemma {:induction false} NotKeyed(stmts: seq<Stmt>)
    requires forall st :: st in stmts ==> !IsKeyed(st)
    ensures Keyed(stmts) == []
  {
    if stmts != [] {
      NotKeyed(stmts[..|stmts| - 1]);
    }
  }

  lemma OneKeyed(st: Stmt)
    requires IsKeyed(st)
    ensures Keyed([st]) == [st]
  {
    assert [st][..0] == [] && Keyed([]) == [];
  }

  const NOTHING := RecordAction(ActionRecord("", 0, "", "", "", "", Args("", "", "", "", "", "")))

  /** The one statement about a keyed table that an `add` issues, if any. */
  function DeedOf(codec: Codec, abi: string, a: Attempt): Stmt {
    var keyed := Keyed(AddResult(codec, abi, a).stmts);
    if keyed == [] then NOTHING else keyed[0]
  }

  lemma ParsedKeyed(codec: Codec, abi: string, act: Action, o: Outcomes)
    ensures var parsed := ParseActions(codec, abi, act, o);
            && Keyed(parsed) == (if parsed == [] then [] else [parsed[0]])
            && (parsed != [] ==> IsKeyed(parsed[0]) && !parsed[0].StoreAbi?)
  {
    var parsed := ParseActions(codec, abi, act, o);
    if parsed != [] {
      assert parsed == [parsed[0]] + parsed[1..];
      hide Keyed, ParseActions;
      OneKeyed(parsed[0]);
      NotKeyed(parsed[1..]);
      KeyedConcat([parsed[0]], parsed[1..]);
    }
  }

  /** A setabi has no other effect. */
  lemma SetAbiParsesNothing(codec: Codec, abi: string, act: Action, o: Outcomes)
    requires act.account == "eosio" && act.name == "setabi"
    ensures ParseActions(codec, abi, act, o) == []
  {
  }

  lemma StoredMeaning(codec: Codec, abi: string, a: Attempt)
    ensures var stored := AddData(codec, abi, a.job.act, a.outcomes).stmts;
            if CarriedAbi(codec, a.job.act).Some? && a.outcomes.storeAbi
            then stored == [StoreAbi(codec.setAbi(a.job.act.data).value.account, CarriedAbi(codec, a.job.act).value)]
            else stored == []
  {
  }

  /** The statement `parse_actions` issues about a keyed table. */
  function ParsedDeed(codec: Codec, abi: string, a: Attempt): Stmt {
    var parsed := ParseActions(codec, abi, a.job.act, a.outcomes);
    if codec.args(DataOf(codec, abi, a)).None? || parsed == [] then NOTHING else parsed[0]
  }

  lemma DeedCases(codec: Codec, abi: string, a: Attempt)
    ensures |Keyed(AddResult(codec, abi, a).stmts)| <= 1
    ensures DeedOf(codec, abi, a) ==
            if CarriedAbi(codec, a.job.act).Some? && a.outcomes.storeAbi
            then StoreAbi(codec.setAbi(a.job.act.data).value.account, CarriedAbi(codec, a.job.act).value)
            else ParsedDeed(codec, abi, a)
  {
    hide ParseActions, AddResult, AddData, IsRow, LeavesRow, DataOf, Keyed;
    var stored, record, parsed := AddParts(codec, abi, a);
    var later := AbiAfter(stored, abi, a.job.act.account);
    StoredMeaning(codec, abi, a);
    if stored != [] {
      SetAbiParsesNothing(codec, later, a.job.act, a.outcomes);
      OneKeyed(stored[0]);
    }
    ParsedKeyed(codec, later, a.job.act, a.outcomes);
    NotKeyed(record);
    NotKeyed([]);
    KeyedConcat(stored + record, parsed);
    KeyedConcat(stored, record);
    assert Keyed(stored) + [] == Keyed(stored) && Keyed(stored) + Keyed(parsed) == Keyed(stored + record + parsed);
  }

  lemma ProposeMeaning(codec: Codec, abi: string, a: Attempt, k: ProposalKey, requested: string)
    ensures DeedOf(codec, abi, a) == Propose(k, requested) <==> Proposes(codec, abi, a, k, requested)
  {
    hide DeedOf, AddResult, DataOf, Keyed;
    DeedCases(codec, abi, a);
  }

  lemma DropMeaning(codec: Codec, abi: string, a: Attempt, k: ProposalKey)
    ensures DeedOf(codec, abi, a) == DropProposal(k) <==> Drops(codec, abi, a, k)
  {
    hide DeedOf, AddResult, DataOf, Keyed;
    DeedCases(codec, abi, a);
  }

  lemma VoteMeaning(codec: Codec, abi: string, a: Attempt, voter: Name, vote: Vote)
    ensures DeedOf(codec, abi, a) == CastVote(voter, vote) <==> Votes(codec, abi, a, voter, vote)
  {
    hide DeedOf, AddResult, DataOf, Keyed;
    DeedCases(codec, abi, a);
  }

  lemma CreateMeaning(codec: Codec, abi: string, a: Attempt, k: AssetKey, info: AssetInfo)
    ensures DeedOf(codec, abi, a) == CreateAsset(k, info) <==> Creates(codec, abi, a, k, info)
  {
    hide DeedOf, AddResult, DataOf, Keyed;
    DeedCases(codec, abi, a);
  }

  lemma FoundMeaning(codec: Codec, abi: string, a: Attempt, name: Name)
    ensures DeedOf(codec, abi, a) == TouchAccount(name) <==> Founds(codec, abi, a, name)
  {
    hide DeedOf, AddResult, DataOf, Keyed;
    DeedCases(codec, abi, a);
  }

  lemma InstallMeaning(codec: Codec, abi: string, a: Attempt, name: Name, text: string)
    ensures DeedOf(codec, abi, a) == StoreAbi(name, text) <==> Installs(codec, a, name, text)
  {
    hide DeedOf, AddResult, DataOf, Keyed, ParseActions;
    DeedCases(codec, abi, a);
    ParsedKeyed(codec, abi, a.job.act, a.outcomes);
  }

  // ---------------------------------------------------------------------------------------------
  // The log
  // ---------------------------------------------------------------------------------------------

  /** The ABI in effect for action `i` of the log: the last one the log has stored for its account by then. */
  function AbiAt(codec: Codec, s: Store, log: seq<Attempt>, i: nat): string
    requires i < |log|
  {
    var name := log[i].job.act.account;
    AbiInEffect(codec, log[..i], SelectAbi(s.accounts, name), name)
  }

  predicate ProposesAt(codec: Codec, s: Store, log: seq<Attempt>, i: nat, k: ProposalKey, requested: string) {
    i < |log| && Proposes(codec, AbiAt(codec, s, log, i), log[i], k, requested)
  }

  predicate DropsAt(codec: Codec, s: Store, log: seq<Attempt>, i: nat, k: ProposalKey) {
    i < |log| && Drops(codec, AbiAt(codec, s, log, i), log[i], k)
  }

  predicate VotesAt(codec: Codec, s: Store, log: seq<Attempt>, i: nat, voter: Name, vote: Vote) {
    i < |log| && Votes(codec, AbiAt(codec, s, log, i), log[i], voter, vote)
  }

  predicate CreatesAt(codec: Codec, s: Store, log: seq<Attempt>, i: nat, k: AssetKey, info: AssetInfo) {
    i < |log| && Creates(codec, AbiAt(codec, s, log, i), log[i], k, info)
  }

  predicate FoundsAt(codec: Codec, s: Store, log: seq<Attempt>, i: nat, name: Name) {
    i < |log| && Founds(codec, AbiAt(codec, s, log, i), log[i], name)
  }

  predicate InstallsAt(codec: Codec, log: seq<Attempt>, i: nat, name: Name, abi: string) {
    i < |log| && Installs(codec, log[i], name, abi)
  }

  /** The deeds of a log, action by action. */
  function Deeds(codec: Codec, s: Store, log: seq<Attempt>): seq<Stmt> {
    seq(|log|, i requires 0 <= i < |log| => DeedOf(codec, AbiAt(codec, s, log, i), log[i]))
  }

  predicate SameKeyed(s: Store, t: Store) {
    s.accounts == t.accounts && s.votes == t.votes && s.proposals == t.proposals && s.assets == t.assets
  }

  lemma ApplySame(s: Store, t: Store, st: Stmt)
    requires SameKeyed(s, t)
    ensures SameKeyed(Apply(s, st), if IsKeyed(st) then Apply(t, st) else t)
  {
  }

  lemma {:induction false} KeyedApply(s: Store, t: Store, stmts: seq<Stmt>)
    requires SameKeyed(s, t)
    ensures SameKeyed(ApplyAll(s, stmts), ApplyAll(t, Keyed(stmts)))
  {
    hide SameKeyed, Apply, IsKeyed;
    if stmts != [] {
      var pre, last := stmts[..|stmts| - 1], stmts[|stmts| - 1];
      KeyedApply(s, t, pre);
      ApplySame(ApplyAll(s, pre), ApplyAll(t, Keyed(pre)), last);
      if IsKeyed(last) {
        assert Keyed(stmts)[..|Keyed(stmts)| - 1] == Keyed(pre);
      } else {
        assert Keyed(stmts) == Keyed(pre);
      }
    }
  }

  /** One `add` changes the keyed tables as its deed does. */
  lemma AddIsDeed(codec: Codec, abi: string, a: Attempt, s: Store, t: Store)
    requires SameKeyed(s, t)
    ensures SameKeyed(ApplyAll(s, AddResult(codec, abi, a).stmts), Apply(t, DeedOf(codec, abi, a)))
  {
    hide AddResult, Keyed, IsKeyed;
    var stmts := AddResult(codec, abi, a).stmts;
    KeyedApply(s, t, stmts);
    DeedCases(codec, abi, a);
    if Keyed(stmts) == [] {
      assert ApplyAll(t, Keyed(stmts)) == t;
      assert SameKeyed(t, Apply(t, NOTHING));
    } else {
      assert Keyed(stmts) == [DeedOf(codec, abi, a)];
      ApplyOne(t, DeedOf(codec, abi, a));
    }
  }

  lemma DeedsPrefix(codec: Codec, s: Store, log: seq<Attempt>)
    requires log != []
    ensures var n := |log| - 1;
            && Deeds(codec, s, log)[..n] == Deeds(codec, s, log[..n])
            && Deeds(codec, s, log)[n] == DeedOf(codec, AbiAt(codec, s, log, n), log[n])
  {
    hide DeedOf, AbiInEffect, SelectAbi;
    var n := |log| - 1;
    assert forall i :: 0 <= i < n ==> log[..n][..i] == log[..i];
  }

  /** The keyed tables after any log, with any statements failing, are those of one deed for each action: ids
      and order included. */
  lemma {:induction false} TablesAreDeeds(codec: Codec, s: Store, log: seq<Attempt>)
    requires ValidStore(s)
    ensures SameKeyed(Replay(codec, s, log), ApplyAll(s, Deeds(codec, s, log)))
  {
    hide SameKeyed, AddResult, DeedOf, AbiInEffect, SelectAbi, Apply, Deeds;
    if log == [] {
      NoDeeds(codec, s);
    } else {
      var n := |log| - 1;
      var pre, a := log[..n], log[n];
      TablesAreDeeds(codec, s, pre);
      DeedsPrefix(codec, s, log);
      LookupFindsAbiInEffect(codec, s, pre, a.job.act.account);
      AddIsDeed(codec, AbiAt(codec, s, log, n), a, Replay(codec, s, pre), ApplyAll(s, Deeds(codec, s, pre)));
      DeedsLength(codec, s, log);
    }
  }

  lemma NoDeeds(codec: Codec, s: Store)
    ensures SameKeyed(Replay(codec, s, []), ApplyAll(s, Deeds(codec, s, [])))
  {
  }

  lemma DeedsLength(codec: Codec, s: Store, log: seq<Attempt>)
    ensures |Deeds(codec, s, log)| == |log|
  {
  }

  lemma DeedAt(codec: Codec, s: Store, log: seq<Attempt>, i: nat)
    requires i < |log|
    ensures |Deeds(codec, s, log)| == |log| && Deeds(codec, s, log)[i] == DeedOf(codec, AbiAt(codec, s, log, i), log[i])
  {
  }

  /** What a keyed table answers after a log, as the last deed about it says. */
  lemma AnswerOfDeeds(codec: Codec, s: Store, log: seq<Attempt>, q: Query, a: Answer)
    requires ValidStore(s)
    ensures var deeds := Deeds(codec, s, log);
            Ask(Replay(codec, s, log), q) == a <==>
            (exists i: nat :: LastWrite(deeds, i, q) && Dictates(deeds[i], q) == Some(a))
            || (Untouched(deeds, q) && Ask(s, q) == a)
  {
    hide ApplyAll, Replay, Deeds, Dictates, Untouched, LastWrite;
    TablesAreDeeds(codec, s, log);
    AnswerExactly(s, Deeds(codec, s, log), q, a);
  }

  /** An `add` of the log throws exactly when the data it stores does not convert. */
  lemma ThrowsByActions(codec: Codec, s: Store, log: seq<Attempt>, i: nat)
    requires ValidStore(s) && i < |log|
    ensures Add(codec, Replay(codec, s, log[..i]), log[i]).threw <==>
            codec.args(DataOf(codec, AbiAt(codec, s, log, i), log[i])).None?
  {
    hide AddResult, DataOf, Replay, AbiInEffect;
    LookupFindsAbiInEffect(codec, s, log[..i], log[i].job.act.account);
    ThrowsExactly(codec, AbiAt(codec, s, log, i), log[i]);
  }

  // ---------------------------------------------------------------------------------------------
  // Proposals
  // ---------------------------------------------------------------------------------------------

  ghost predicate ConcernsProposal(codec: Codec, s: Store, log: seq<Attempt>, i: nat, k: ProposalKey) {
    DropsAt(codec, s, log, i, k) || exists requested :: ProposesAt(codec, s, log, i, k, requested)
  }

  /** No action after `i` concerns the proposal; `i` is -1 for no action at all. */
  ghost predicate ProposalRestsAfter(codec: Codec, s: Store, log: seq<Attempt>, i: int, k: ProposalKey) {
    forall j: nat :: i < j < |log| ==> !ConcernsProposal(codec, s, log, j, k)
  }

  lemma ProposalDeed(codec: Codec, s: Store, log: seq<Attempt>, i: nat, k: ProposalKey)
    requires i < |log|
    ensures |Deeds(codec, s, log)| == |log|
    ensures Dictates(Deeds(codec, s, log)[i], ProposalOf(k)).Some? <==> ConcernsProposal(codec, s, log, i, k)
    ensures forall requested ::
              Dictates(Deeds(codec, s, log)[i], ProposalOf(k)) == Some(AProposal(requested)) <==>
              ProposesAt(codec, s, log, i, k, requested)
  {
    hide DeedOf, AbiAt, Proposes, Drops, Deeds;
    var abi := AbiAt(codec, s, log, i);
    DeedAt(codec, s, log, i);
    DropMeaning(codec, abi, log[i], k);
    forall requested
      ensures DeedOf(codec, abi, log[i]) == Propose(k, requested) <==> Proposes(codec, abi, log[i], k, requested)
    {
      ProposeMeaning(codec, abi, log[i], k, requested);
    }
    var deed := DeedOf(codec, abi, log[i]);
    if deed.Propose? && deed.key == k {
      assert ProposesAt(codec, s, log, i, k, deed.requested);
    }
  }

  /** A proposal is in the table, with these approvals, if and only if the last action to concern it, a propose,
      cancel or exec of the multisig contract that took effect, is a propose with these approvals; or no action
      concerns it and it was there. */
  lemma ProposalByActions(codec: Codec, s: Store, log: seq<Attempt>, k: ProposalKey, requested: string)
    requires ValidStore(s)
    ensures Get(Replay(codec, s, log).proposals, k) == Some(requested) <==>
            (exists i: nat :: ProposesAt(codec, s, log, i, k, requested) && ProposalRestsAfter(codec, s, log, i, k))
            || (ProposalRestsAfter(codec, s, log, -1, k) && Get(s.proposals, k) == Some(requested))
  {
    hide Replay, Deeds, Dictates, ProposesAt, ConcernsProposal;
    var deeds, q := Deeds(codec, s, log), ProposalOf(k);
    AnswerOfDeeds(codec, s, log, q, AProposal(requested));
    DeedsLength(codec, s, log);
    forall i: nat | i < |log|
      ensures Dictates(deeds[i], q).Some? <==> ConcernsProposal(codec, s, log, i, k)
      ensures Dictates(deeds[i], q) == Some(AProposal(requested)) <==> ProposesAt(codec, s, log, i, k, requested)
    {
      ProposalDeed(codec, s, log, i, k);
    }
    OnlyInLog(codec, s, log, k, requested);
  }

  lemma OnlyInLog(codec: Codec, s: Store, log: seq<Attempt>, k: ProposalKey, requested: string)
    ensures forall i: nat :: ProposesAt(codec, s, log, i, k, requested) ==> i < |log|
  {
  }

  lemma ProposalStmts(codec: Codec, s: Store, log: seq<Attempt>, i: nat, k: ProposalKey)
    requires i < |log|
    ensures |Deeds(codec, s, log)| == |log|
    ensures Statements.Drops(Deeds(codec, s, log)[i], k) <==> DropsAt(codec, s, log, i, k)
    ensures Statements.Proposes(Deeds(codec, s, log)[i], k) <==> MakesAt(codec, s, log, i, k)
  {
    hide DeedOf, AbiAt, Proposes, Drops, Deeds;
    var abi := AbiAt(codec, s, log, i);
    DeedAt(codec, s, log, i);
    DropMeaning(codec, abi, log[i], k);
    var deed := DeedOf(codec, abi, log[i]);
    if deed.Propose? && deed.key == k {
      ProposeMeaning(codec, abi, log[i], k, deed.requested);
      assert ProposesAt(codec, s, log, i, k, deed.requested);
    }
    if requested :| ProposesAt(codec, s, log, i, k, requested) {
      ProposeMeaning(codec, abi, log[i], k, requested);
    }
  }

  /** Action `i` proposes `k`. */
  ghost predicate MakesAt(codec: Codec, s: Store, log: seq<Attempt>, i: nat, k: ProposalKey) {
    exists requested :: ProposesAt(codec, s, log, i, k, requested)
  }

  /** Some action strictly between `lo` and `hi` cancels or executes `k`. */
  ghost predicate DroppedBetween(codec: Codec, s: Store, log: seq<Attempt>, lo: int, hi: int, k: ProposalKey) {
    exists m: nat :: lo < m < hi && DropsAt(codec, s, log, m, k)
  }

  /** Action `i` is the first propose of `k` since the last cancel or exec of it. */
  ghost predicate MadeAt(codec: Codec, s: Store, log: seq<Attempt>, i: nat, k: ProposalKey) {
    && MakesAt(codec, s, log, i, k)
    && !DroppedBetween(codec, s, log, i, |log|, k)
    && (forall j: nat :: j < i && MakesAt(codec, s, log, j, k) ==> DroppedBetween(codec, s, log, j, i, k))
  }

  lemma DroppedDeeds(codec: Codec, s: Store, log: seq<Attempt>, lo: int, hi: int, k: ProposalKey)
    ensures DroppedIn(Deeds(codec, s, log), k, lo, hi) <==> DroppedBetween(codec, s, log, lo, hi, k)
  {
    hide Deeds, DropsAt, Statements.Drops;
    DeedsLength(codec, s, log);
    forall m: nat | m < |log| ensures Statements.Drops(Deeds(codec, s, log)[m], k) <==> DropsAt(codec, s, log, m, k) {
      ProposalStmts(codec, s, log, m, k);
    }
    DropsInLog(codec, s, log, k);
  }

  lemma DropsInLog(codec: Codec, s: Store, log: seq<Attempt>, k: ProposalKey)
    ensures forall i: nat :: DropsAt(codec, s, log, i, k) ==> i < |log|
    ensures forall i: nat :: MakesAt(codec, s, log, i, k) ==> i < |log|
  {
  }

  lemma MadeMeaning(codec: Codec, s: Store, log: seq<Attempt>, i: nat, k: ProposalKey)
    ensures FirstSinceDrop(false, Deeds(codec, s, log), k, i) <==> MadeAt(codec, s, log, i, k)
  {
    hide Deeds, DropsAt, MakesAt, Statements.Drops, Statements.Proposes, DroppedIn, DroppedBetween;
    var deeds := Deeds(codec, s, log);
    DeedsLength(codec, s, log);
    DropsInLog(codec, s, log, k);
    forall lo: int, hi: int ensures DroppedIn(deeds, k, lo, hi) <==> DroppedBetween(codec, s, log, lo, hi, k) {
      DroppedDeeds(codec, s, log, lo, hi, k);
    }
    forall m: nat | m < |log| ensures Statements.Proposes(deeds[m], k) <==> MakesAt(codec, s, log, m, k) {
      ProposalStmts(codec, s, log, m, k);
    }
  }

  /** Two proposals in the order they were made. */
  ghost predicate MadeInOrder(codec: Codec, s: Store, log: seq<Attempt>, j: ProposalKey, k: ProposalKey) {
    exists a: nat, b: nat :: a < b && MadeAt(codec, s, log, a, j) && MadeAt(codec, s, log, b, k)
  }

  /** With none to begin with, proposals ordered by id come in the order of the actions that made them. */
  lemma ProposalsInOrder(codec: Codec, s: Store, log: seq<Attempt>, rows: seq<Row<ProposalKey, string>>)
    requires ValidStore(s) && s.proposals.rows == [] && rows == Replay(codec, s, log).proposals.rows
    ensures forall a, b :: 0 <= a < b < |rows| ==> MadeInOrder(codec, s, log, rows[a].key, rows[b].key)
  {
    hide Replay, ApplyAll, Deeds, Born, MadeAt, FirstSinceDrop;
    var deeds := Deeds(codec, s, log);
    TablesAreDeeds(codec, s, log);
    ProposalsListedByBirth(s, deeds);
    forall a, b | 0 <= a < b < |rows| ensures MadeInOrder(codec, s, log, rows[a].key, rows[b].key) {
      var j, k := rows[a].key, rows[b].key;
      BornInLog(deeds, j);
      BornInLog(deeds, k);
      var x: nat, y: nat := Born(false, deeds, j).value, Born(false, deeds, k).value;
      BornMeaning(false, deeds, j, x);
      BornMeaning(false, deeds, k, y);
      MadeMeaning(codec, s, log, x, j);
      MadeMeaning(codec, s, log, y, k);
    }
  }

  lemma {:induction false} BornInLog(stmts: seq<Stmt>, k: ProposalKey)
    ensures Born(false, stmts, k).Some? ==> Born(false, stmts, k).value >= 0
  {
    if stmts != [] {
      BornInLog(stmts[..|stmts| - 1], k);
    }
  }

  // ---------------------------------------------------------------------------------------------
  // Votes, assets, accounts
  // ---------------------------------------------------------------------------------------------

  ghost predicate ConcernsVote(codec: Codec, s: Store, log: seq<Attempt>, i: nat, voter: Name) {
    exists vote :: VotesAt(codec, s, log, i, voter, vote)
  }

  ghost predicate VoteRestsAfter(codec: Codec, s: Store, log: seq<Attempt>, i: int, voter: Name) {
    forall j: nat :: i < j < |log| ==> !ConcernsVote(codec, s, log, j, voter)
  }

  lemma VoteDeed(codec: Codec, s: Store, log: seq<Attempt>, i: nat, voter: Name)
    requires i < |log|
    ensures |Deeds(codec, s, log)| == |log|
    ensures Dictates(Deeds(codec, s, log)[i], VoteOf(voter)).Some? <==> ConcernsVote(codec, s, log, i, voter)
    ensures forall vote :: Dictates(Deeds(codec, s, log)[i], VoteOf(voter)) == Some(AVote(vote)) <==>
                           VotesAt(codec, s, log, i, voter, vote)
  {
    hide DeedOf, AbiAt, Votes, Deeds;
    var abi := AbiAt(codec, s, log, i);
    DeedAt(codec, s, log, i);
    forall vote
      ensures DeedOf(codec, abi, log[i]) == CastVote(voter, vote) <==> Votes(codec, abi, log[i], voter, vote)
    {
      VoteMeaning(codec, abi, log[i], voter, vote);
    }
    var deed := DeedOf(codec, abi, log[i]);
    if deed.CastVote? && deed.voter == voter {
      assert VotesAt(codec, s, log, i, voter, deed.vote);
    }
  }

  /** A voter's row is its last voteproducer that took effect, with its proxy and producers. */
  lemma VoteByActions(codec: Codec, s: Store, log: seq<Attempt>, voter: Name, vote: Vote)
    requires ValidStore(s)
    ensures Get(Replay(codec, s, log).votes, voter) == Some(vote) <==>
            (exists i: nat :: VotesAt(codec, s, log, i, voter, vote) && VoteRestsAfter(codec, s, log, i, voter))
            || (VoteRestsAfter(codec, s, log, -1, voter) && Get(s.votes, voter) == Some(vote))
  {
    hide Replay, Deeds, Dictates, Votes, ConcernsVote;
    var deeds, q := Deeds(codec, s, log), VoteOf(voter);
    AnswerOfDeeds(codec, s, log, q, AVote(vote));
    DeedsLength(codec, s, log);
    forall i: nat | i < |log|
      ensures Dictates(deeds[i], q).Some? <==> ConcernsVote(codec, s, log, i, voter)
      ensures Dictates(deeds[i], q) == Some(AVote(vote)) <==> VotesAt(codec, s, log, i, voter, vote)
    {
      VoteDeed(codec, s, log, i, voter);
    }
  }

  ghost predicate ConcernsAsset(codec: Codec, s: Store, log: seq<Attempt>, i: nat, k: AssetKey) {
    exists info :: CreatesAt(codec, s, log, i, k, info)
  }

  ghost predicate AssetRestsAfter(codec: Codec, s: Store, log: seq<Attempt>, i: int, k: AssetKey) {
    forall j: nat :: i < j < |log| ==> !ConcernsAsset(codec, s, log, j, k)
  }

  lemma AssetDeed(codec: Codec, s: Store, log: seq<Attempt>, i: nat, k: AssetKey)
    requires i < |log|
    ensures |Deeds(codec, s, log)| == |log|
    ensures Dictates(Deeds(codec, s, log)[i], AssetOf(k)).Some? <==> ConcernsAsset(codec, s, log, i, k)
    ensures forall info :: Dictates(Deeds(codec, s, log)[i], AssetOf(k)) == Some(AnAsset(info)) <==>
                           CreatesAt(codec, s, log, i, k, info)
  {
    hide DeedOf, AbiAt, Creates, Deeds;
    var abi := AbiAt(codec, s, log, i);
    DeedAt(codec, s, log, i);
    forall info ensures DeedOf(codec, abi, log[i]) == CreateAsset(k, info) <==> Creates(codec, abi, log[i], k, info) {
      CreateMeaning(codec, abi, log[i], k, info);
    }
    var deed := DeedOf(codec, abi, log[i]);
    if deed.CreateAsset? && deed.asset == k {
      assert CreatesAt(codec, s, log, i, k, deed.info);
    }
  }

  /** An asset's row is the last create of its symbol by its contract with an issuer and a positive supply. */
  lemma AssetByActions(codec: Codec, s: Store, log: seq<Attempt>, k: AssetKey, info: AssetInfo)
    requires ValidStore(s)
    ensures Get(Replay(codec, s, log).assets, k) == Some(info) <==>
            (exists i: nat :: CreatesAt(codec, s, log, i, k, info) && AssetRestsAfter(codec, s, log, i, k))
            || (AssetRestsAfter(codec, s, log, -1, k) && Get(s.assets, k) == Some(info))
  {
    hide Replay, Deeds, Dictates, Creates, ConcernsAsset;
    var deeds, q := Deeds(codec, s, log), AssetOf(k);
    AnswerOfDeeds(codec, s, log, q, AnAsset(info));
    DeedsLength(codec, s, log);
    forall i: nat | i < |log|
      ensures Dictates(deeds[i], q).Some? <==> ConcernsAsset(codec, s, log, i, k)
      ensures Dictates(deeds[i], q) == Some(AnAsset(info)) <==> CreatesAt(codec, s, log, i, k, info)
    {
      AssetDeed(codec, s, log, i, k);
    }
  }

  ghost predicate ConcernsAbi(codec: Codec, log: seq<Attempt>, i: nat, name: Name) {
    exists abi :: InstallsAt(codec, log, i, name, abi)
  }

  ghost predicate AbiRestsAfter(codec: Codec, log: seq<Attempt>, i: int, name: Name) {
    forall j: nat :: i < j < |log| ==> !ConcernsAbi(codec, log, j, name)
  }

  /** Action `i` sees to it that the account has a row. */
  ghost predicate GivesAccount(codec: Codec, s: Store, log: seq<Attempt>, i: nat, name: Name) {
    FoundsAt(codec, s, log, i, name) || ConcernsAbi(codec, log, i, name)
  }

  lemma AccountDeed(codec: Codec, s: Store, log: seq<Attempt>, i: nat, name: Name)
    requires i < |log|
    ensures |Deeds(codec, s, log)| == |log|
    ensures Dictates(Deeds(codec, s, log)[i], AbiOf(name)).Some? <==> ConcernsAbi(codec, log, i, name)
    ensures forall abi :: Dictates(Deeds(codec, s, log)[i], AbiOf(name)) == Some(AnAbi(abi)) <==>
                          InstallsAt(codec, log, i, name, abi)
    ensures Dictates(Deeds(codec, s, log)[i], AccountOf(name)) ==
            if GivesAccount(codec, s, log, i, name) then Some(Present) else None
  {
    hide DeedOf, AbiAt, Founds, Installs, Deeds;
    DeedAt(codec, s, log, i);
    var effect := AbiAt(codec, s, log, i);
    FoundMeaning(codec, effect, log[i], name);
    forall text ensures DeedOf(codec, effect, log[i]) == StoreAbi(name, text) <==> Installs(codec, log[i], name, text) {
      InstallMeaning(codec, effect, log[i], name, text);
    }
    var deed := DeedOf(codec, effect, log[i]);
    if deed.StoreAbi? && deed.account == name {
      assert InstallsAt(codec, log, i, name, deed.abi);
    }
  }

  /** An account's ABI is the last one stored for it by a setabi that unpacks. */
  lemma AbiByActions(codec: Codec, s: Store, log: seq<Attempt>, name: Name, abi: string)
    requires ValidStore(s)
    ensures Get(Replay(codec, s, log).accounts, name) == Some(Some(abi)) <==>
            (exists i: nat :: InstallsAt(codec, log, i, name, abi) && AbiRestsAfter(codec, log, i, name))
            || (AbiRestsAfter(codec, log, -1, name) && Get(s.accounts, name) == Some(Some(abi)))
  {
    hide Replay, Deeds, Dictates, Installs, Founds, ConcernsAbi;
    var deeds, q := Deeds(codec, s, log), AbiOf(name);
    AnswerOfDeeds(codec, s, log, q, AnAbi(abi));
    DeedsLength(codec, s, log);
    forall i: nat | i < |log|
      ensures Dictates(deeds[i], q).Some? <==> ConcernsAbi(codec, log, i, name)
      ensures Dictates(deeds[i], q) == Some(AnAbi(abi)) <==> InstallsAt(codec, log, i, name, abi)
    {
      AccountDeed(codec, s, log, i, name);
    }
  }

  /** An account is there if and only if it was, or a newaccount or setabi for it has taken effect. */
  lemma AccountByActions(codec: Codec, s: Store, log: seq<Attempt>, name: Name)
    requires ValidStore(s)
    ensures Get(Replay(codec, s, log).accounts, name).Some? <==>
            Get(s.accounts, name).Some? || exists i: nat :: i < |log| && GivesAccount(codec, s, log, i, name)
  {
    hide Replay, Deeds, Dictates, GivesAccount, ApplyAll;
    var deeds, q := Deeds(codec, s, log), AccountOf(name);
    TablesAreDeeds(codec, s, log);
    TablesAreLastWrites(s, deeds, q);
    DeedsLength(codec, s, log);
    forall i: nat | i < |log|
      ensures Dictates(deeds[i], q) == if GivesAccount(codec, s, log, i, name) then Some(Present) else None
    {
      AccountDeed(codec, s, log, i, name);
    }
    if i: nat :| LastWrite(deeds, i, q) {
      assert Dictates(deeds[i], q) == Some(Present);
    }
  }

  // ---------------------------------------------------------------------------------------------
  // Rows of the append-only tables
  // ---------------------------------------------------------------------------------------------

  predicate LeavesRowAt(codec: Codec, s: Store, log: seq<Attempt>, i: nat) {
    i < |log| && LeavesRow(codec, AbiAt(codec, s, log, i), log[i])
  }

  lemma AbiAtPrefix(codec: Codec, s: Store, log: seq<Attempt>, n: nat, i: nat)
    requires i < n <= |log|
    ensures AbiAt(codec, s, log[..n], i) == AbiAt(codec, s, log, i) && log[..n][i] == log[i]
  {
    hide AbiInEffect, SelectAbi;
    assert log[..n][..i] == log[..i];
  }

  /** `rows` are the rows that the actions at `at` leave. */
  ghost predicate AreRows(codec: Codec, s: Store, log: seq<Attempt>, at: seq<nat>, rows: seq<ActionRecord>) {
    && |rows| == |at| && Increasing(at) && (forall i :: i in at <==> LeavesRowAt(codec, s, log, i))
    && forall j :: 0 <= j < |at| ==>
         at[j] < |log| && IsRow(codec, AbiAt(codec, s, log, at[j]), log[at[j]], rows[j])
  }

  lemma RowsSnoc(codec: Codec, s: Store, log: seq<Attempt>, at: seq<nat>, rows: seq<ActionRecord>,
                 more: seq<ActionRecord>)
    requires log != [] && AreRows(codec, s, log[..|log| - 1], at, rows)
    requires var n := |log| - 1;
             && |more| == (if LeavesRow(codec, AbiAt(codec, s, log, n), log[n]) then 1 else 0)
             && (|more| == 1 ==> IsRow(codec, AbiAt(codec, s, log, n), log[n], more[0]))
    ensures AreRows(codec, s, log, at + if more == [] then [] else [|log| - 1], rows + more)
  {
    hide LeavesRow, IsRow, AbiAt;
    var n := |log| - 1;
    forall i: nat | i < n ensures LeavesRowAt(codec, s, log[..n], i) <==> LeavesRowAt(codec, s, log, i) {
      AbiAtPrefix(codec, s, log, n, i);
    }
    forall j | 0 <= j < |at| ensures at[j] < n && IsRow(codec, AbiAt(codec, s, log, at[j]), log[at[j]], rows[j]) {
      AbiAtPrefix(codec, s, log, n, at[j]);
    }
  }

  lemma {:induction false} RowsOfLog(codec: Codec, s: Store, log: seq<Attempt>) returns (at: seq<nat>)
    ensures AreRows(codec, s, log, at, Records(DirectStmts(codec, s, log)))
  {
    hide AddResult, LeavesRow, IsRow, AbiAt, AbiInEffect;
    if log == [] {
      at := [];
    } else {
      hide AreRows, DirectStmts, Records;
      var n := |log| - 1;
      var pre, a := log[..n], log[n];
      at := RowsOfLog(codec, s, pre);
      var abi := AbiAt(codec, s, log, n);
      DirectAt(codec, s, log);
      AddRecords(codec, abi, a);
      RecordsConcat(DirectStmts(codec, s, pre), AddResult(codec, abi, a).stmts);
      var more := Records(AddResult(codec, abi, a).stmts);
      RowsSnoc(codec, s, log, at, Records(DirectStmts(codec, s, pre)), more);
      at := at + if more == [] then [] else [n];
    }
  }

  lemma DirectAt(codec: Codec, s: Store, log: seq<Attempt>)
    requires log != []
    ensures var n := |log| - 1;
            DirectStmts(codec, s, log)
            == DirectStmts(codec, s, log[..n]) + AddResult(codec, AbiAt(codec, s, log, n), log[n]).stmts
  {
    hide AddResult;
  }

  /** The rows a log appends to the actions table: in order, one for each action whose data converts and whose
      insert is accepted, with that action's account, name, time, transaction, authorization, data and names. */
  lemma RecordedRows(codec: Codec, s: Store, log: seq<Attempt>) returns (at: seq<nat>, rows: seq<ActionRecord>)
    requires ValidStore(s)
    ensures AreRows(codec, s, log, at, rows) && Replay(codec, s, log).actions == s.actions + rows
  {
    hide Replay, DirectStmts, AreRows;
    at := RowsOfLog(codec, s, log);
    rows := Records(DirectStmts(codec, s, log));
    ReplayIsStatements(codec, s, log);
    StatementsAreDirect(codec, s, log);
    LogAppends(s, StmtsOf(codec, s, log));
  }

  /** The keys a log adds, action after action. */
  function KeysOfLog(codec: Codec, s: Store, log: seq<Attempt>): seq<KeyRow> {
    if log == [] then []
    else KeysOfLog(codec, s, log[..|log| - 1]) + NewKeys(codec, AbiAt(codec, s, log, |log| - 1), log[|log| - 1])
  }

  lemma PrefixKeys(na: NewAccount, n: nat)
    ensures var rows := Prefix(AllKeyRows(na), n);
            var all := |na.ownerKeys| + |na.activeKeys|;
            && |rows| == (if n < all then n else all)
            && (forall j :: 0 <= j < |rows| ==>
                  rows[j] == if j < |na.ownerKeys| then KeyRow(na.name, na.ownerKeys[j], "owner")
                             else KeyRow(na.name, na.activeKeys[j - |na.ownerKeys|], "active"))
  {
  }

  lemma NewKeysArePrefix(codec: Codec, abi: string, a: Attempt)
    requires codec.newAccount(a.job.act.data).Some?
    requires Founds(codec, abi, a, codec.newAccount(a.job.act.data).value.name)
    ensures NewKeys(codec, abi, a) == Prefix(AllKeyRows(codec.newAccount(a.job.act.data).value), a.outcomes.keyInserts)
  {
    hide Founds, AllKeyRows, Prefix;
    PrefixKeys(codec.newAccount(a.job.act.data).value, a.outcomes.keyInserts);
  }

  lemma ParsedFounds(codec: Codec, abi: string, a: Attempt)
    ensures var act, o := a.job.act, a.outcomes;
            var parsed := if codec.args(DataOf(codec, abi, a)).None? then [] else ParseActions(codec, abi, act, o);
            if codec.newAccount(act.data).Some? && Founds(codec, abi, a, codec.newAccount(act.data).value.name)
            then parsed == [TouchAccount(codec.newAccount(act.data).value.name)]
                           + AddKeys(Prefix(AllKeyRows(codec.newAccount(act.data).value), o.keyInserts))
            else forall st :: st in parsed ==> !st.AddKey?
  {
    hide DataOf, AllKeyRows, Prefix, AddKeys;
  }

  lemma ParsedNewKeys(codec: Codec, abi: string, a: Attempt)
    ensures KeysAdded(if codec.args(DataOf(codec, abi, a)).None? then []
                      else ParseActions(codec, abi, a.job.act, a.outcomes))
            == NewKeys(codec, abi, a)
  {
    hide DataOf, ParseActions, AllKeyRows, Prefix, AddKeys, Founds, KeysAdded;
    var act, o := a.job.act, a.outcomes;
    var parsed := if codec.args(DataOf(codec, abi, a)).None? then [] else ParseActions(codec, abi, act, o);
    ParsedFounds(codec, abi, a);
    if codec.newAccount(act.data).Some? && Founds(codec, abi, a, codec.newAccount(act.data).value.name) {
      var na := codec.newAccount(act.data).value;
      var rows := Prefix(AllKeyRows(na), o.keyInserts);
      KeysAddedConcat([TouchAccount(na.name)], AddKeys(rows));
      NoKeysAdded([TouchAccount(na.name)]);
      KeysOfAddKeys(rows);
      assert [] + rows == rows;
      NewKeysArePrefix(codec, abi, a);
    } else {
      NoKeysAdded(parsed);
    }
  }

  lemma AddNewKeys(codec: Codec, abi: string, a: Attempt)
    ensures KeysAdded(AddResult(codec, abi, a).stmts) == NewKeys(codec, abi, a)
  {
    hide ParseActions, AddResult, AddData, IsRow, LeavesRow, DataOf, NewKeys, KeysAdded;
    var stored, record, parsed := AddParts(codec, abi, a);
    StoredMeaning(codec, abi, a);
    ParsedNewKeys(codec, abi, a);
    if stored != [] {
      SetAbiParsesNothing(codec, AbiAfter(stored, abi, a.job.act.account), a.job.act, a.outcomes);
      SetAbiParsesNothing(codec, abi, a.job.act, a.outcomes);
    }
    OnlyParsedKeys(stored, record, parsed);
  }

  /** The keys a log appends to accounts_keys, action after action. */
  lemma KeysByActions(codec: Codec, s: Store, log: seq<Attempt>)
    requires ValidStore(s)
    ensures Replay(codec, s, log).keys == s.keys + KeysOfLog(codec, s, log)
  {
    hide Replay, DirectStmts, KeysAdded, KeysOfLog;
    ReplayIsStatements(codec, s, log);
    StatementsAreDirect(codec, s, log);
    LogAppends(s, StmtsOf(codec, s, log));
    DirectKeys(codec, s, log);
  }

  lemma {:induction false} DirectKeys(codec: Codec, s: Store, log: seq<Attempt>)
    ensures KeysAdded(DirectStmts(codec, s, log)) == KeysOfLog(codec, s, log)
  {
    hide AddResult, NewKeys, AbiInEffect, SelectAbi;
    if log != [] {
      var n := |log| - 1;
      DirectKeys(codec, s, log[..n]);
      DirectAt(codec, s, log);
      hide DirectStmts, KeysAdded;
      KeysAddedConcat(DirectStmts(codec, s, log[..n]), AddResult(codec, AbiAt(codec, s, log, n), log[n]).stmts);
      AddNewKeys(codec, AbiAt(codec, s, log, n), log[n]);
    }
  }
}
