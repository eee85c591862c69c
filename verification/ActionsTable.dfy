/**
 `actions_table::add` with its two parts `add_data` and `parse_actions`: which statements one recorded
 action issues, given the ABI its account has and which statements the database accepts. Decoding of
 binary data is code outside the repository and enters as the partial functions of `Codec`.
 */
module ActionsTable {
  import opened Common
  import opened Traces
  import opened Tables
  import opened Statements
  import Approvals

  /** A decoded value, as an `fc::variant`. */
  datatype Variant = Text(text: string) | List(items: seq<Variant>) | Object(fields: map<string, Variant>)

  datatype Asset = Asset(amount: int, precision: nat, symbol: string)
  datatype NewAccount = NewAccount(name: Name, ownerKeys: seq<string>, activeKeys: seq<string>)
  datatype SetAbi = SetAbi(account: Name, abi: seq<Byte>)

  /** Unpacking and printing; None is a thrown exception. */
  datatype Codec = Codec(
    builtinAbi: string,                               // the text of the system contract's ABI
    decode: (string, Action) -> Option<Variant>,      // an action's data under an ABI text
    toJson: Variant -> string,
    asName: Variant -> Option<Name>,
    asAsset: Variant -> Option<Asset>,
    newAccount: seq<Byte> -> Option<NewAccount>,
    setAbi: seq<Byte> -> Option<SetAbi>,
    abiDef: seq<Byte> -> Option<string>,              // an unpacked ABI, printed
    args: string -> Option<Args>                      // JSON text to `system_contract_arg`
  )

  /** Which of the statements of one `add` the database accepts; `keyInserts` keys are inserted before
      one fails. */
  datatype Outcomes = Outcomes(
    storeAbi: bool, lookup: bool, record: bool, lookupAgain: bool, write: bool, keyInserts: nat)

  datatype Attempt = Attempt(job: Job, outcomes: Outcomes)

  /** The statements that took effect, and whether `add` threw. */
  datatype Result = Result(stmts: seq<Stmt>, threw: bool)

  /** What `add_data` returns and the statement it got through. */
  datatype Prepared = Prepared(json: string, stmts: seq<Stmt>)

  /** SELECT abi FROM accounts: empty when there is no row or no ABI. */
  function SelectAbi(accounts: Table<Name, Option<string>>, name: Name): string {
    var row: Option<Option<string>> := Get(accounts, name);
    if row.Some? && row.value.Some? then row.value.value else ""
  }

  function Render(codec: Codec, abi: string, act: Action, o: Outcomes): string {
    if !o.lookup || abi == "" then "{}"
    else match codec.decode(abi, act) case None => "{}" case Some(v) => codec.toJson(v)
  }

  predicate IsSetAbi(act: Action) {
    act.account == SYSTEM && act.name == "setabi"
  }

  /** `add_data`, for an account whose stored ABI is `abi`. */
  function AddData(codec: Codec, abi: string, act: Action, o: Outcomes): Prepared {
    if |act.data| == 0 then Prepared("{}", [])
    else if IsSetAbi(act) then
      match codec.setAbi(act.data)
      case None => Prepared("{}", [])
      case Some(sa) =>
        match codec.abiDef(sa.abi) {
          case Some(text) => Prepared(text, if o.storeAbi then [StoreAbi(sa.account, text)] else [])
          case None => Prepared(Render(codec, abi, act, o), [])
        }
    else Prepared(Render(codec, abi, act, o), [])
  }

  function Field(v: Variant, key: string): Option<Variant> {
    if v.Object? && key in v.fields then Some(v.fields[key]) else None
  }

  function NameField(codec: Codec, v: Variant, key: string): Option<Name> {
    var f := Field(v, key);
    if f.None? then None else codec.asName(f.value)
  }

  function KeyRows(name: Name, keys: seq<string>, permission: string): seq<KeyRow> {
    seq(|keys|, i requires 0 <= i < |keys| => KeyRow(name, keys[i], permission))
  }

  /** The key rows a new account asks for: its owner keys, then its active keys. */
  function AllKeyRows(na: NewAccount): seq<KeyRow> {
    KeyRows(na.name, na.ownerKeys, "owner") + KeyRows(na.name, na.activeKeys, "active")
  }

  function AddKeys(rows: seq<KeyRow>): seq<Stmt> {
    seq(|rows|, i requires 0 <= i < |rows| => AddKey(rows[i]))
  }

  function Prefix<T>(xs: seq<T>, n: nat): seq<T> {
    if n <= |xs| then xs[..n] else xs
  }

  function SystemStmts(codec: Codec, v: Variant, act: Action, o: Outcomes): seq<Stmt> {
    if act.name == "newaccount" then
      match codec.newAccount(act.data)
      case None => []
      case Some(na) =>
        if o.write then [TouchAccount(na.name)] + AddKeys(Prefix(AllKeyRows(na), o.keyInserts)) else []
    else if act.name == "voteproducer" then
      var voter, proxy, producers := NameField(codec, v, "voter"), NameField(codec, v, "proxy"), Field(v, "producers");
      if voter.Some? && proxy.Some? && producers.Some? && o.write
      then [CastVote(voter.value, Vote(proxy.value, codec.toJson(producers.value)))] else []
    else []
  }

  function MsigStmts(codec: Codec, v: Variant, act: Action, o: Outcomes): seq<Stmt> {
    var proposer, name := NameField(codec, v, "proposer"), NameField(codec, v, "proposal_name");
    if proposer.None? || name.None? || !o.write then []
    else if act.name == "propose" then
      match Field(v, "requested")
      case None => []
      case Some(requested) => [Propose(ProposalKey(proposer.value, name.value), codec.toJson(requested))]
    else if act.name == "cancel" || act.name == "exec" then [DropProposal(ProposalKey(proposer.value, name.value))]
    else []
  }

  function TokenStmts(codec: Codec, v: Variant, act: Action, o: Outcomes): seq<Stmt> {
    if act.name != "create" then []
    else
      var issuer, supply := NameField(codec, v, "issuer"), Field(v, "maximum_supply");
      if issuer.None? || supply.None? || codec.asAsset(supply.value).None? then []
      else
        var max := codec.asAsset(supply.value).value;
        if issuer.value == "" || max.amount <= 0 || !o.write then []
        else [CreateAsset(AssetKey(max.symbol, act.account), AssetInfo(0, max.amount, max.precision, issuer.value))]
  }

  /** The ABI `parse_actions` decodes with, if any. */
  function ParseAbi(codec: Codec, abi: string, act: Action): Option<string> {
    if abi != "" then Some(abi) else if act.account == SYSTEM then Some(codec.builtinAbi) else None
  }

  /** `parse_actions`, for an account whose stored ABI is `abi`; a throw ends it and is caught by `add`. */
  function ParseActions(codec: Codec, abi: string, act: Action, o: Outcomes): seq<Stmt> {
    if !o.lookupAgain || ParseAbi(codec, abi, act).None? then []
    else
      match codec.decode(ParseAbi(codec, abi, act).value, act)
      case None => []
      case Some(v) =>
        if act.account == SYSTEM then SystemStmts(codec, v, act, o)
        else if act.account == MSIG then MsigStmts(codec, v, act, o)
        else TokenStmts(codec, v, act, o)
  }

  /** The ABI the second lookup of one `add` finds. */
  function AbiAfter(stmts: seq<Stmt>, abi: string, name: Name): string {
    if |stmts| == 1 && stmts[0].StoreAbi? && stmts[0].account == name then stmts[0].abi else abi
  }

  function ToRecord(job: Job, json: string, args: Args): ActionRecord {
    ActionRecord(job.act.account, job.time, job.act.name, json,
                 Approvals.PrintLevels(job.act.authorization), job.trxId, args)
  }

  /** `add` on an action the filter names. Converting the JSON throws out of `add`, after the ABI of a
      setabi has been stored and before anything else is written. */
  function AddResult(codec: Codec, abi: string, a: Attempt): Result {
    var act, o := a.job.act, a.outcomes;
    var p := AddData(codec, abi, act, o);
    match codec.args(p.json)
    case None => Result(p.stmts, true)
    case Some(args) =>
      Result(p.stmts
             + (if o.record then [RecordAction(ToRecord(a.job, p.json, args))] else [])
             + ParseActions(codec, AbiAfter(p.stmts, abi, act.account), act, o),
             false)
  }

  function Add(codec: Codec, s: Store, a: Attempt): Result {
    AddResult(codec, SelectAbi(s.accounts, a.job.act.account), a)
  }

  /** The tables after a log of recorded actions. */
  function Replay(codec: Codec, s: Store, log: seq<Attempt>): Store {
    if log == [] then s
    else
      var before := Replay(codec, s, log[..|log| - 1]);
      ApplyAll(before, Add(codec, before, log[|log| - 1]).stmts)
  }

  /** The successful statements of a log, in order. */
  function StmtsOf(codec: Codec, s: Store, log: seq<Attempt>): seq<Stmt> {
    if log == [] then []
    else
      var pre := log[..|log| - 1];
      StmtsOf(codec, s, pre) + Add(codec, Replay(codec, s, pre), log[|log| - 1]).stmts
  }

  lemma {:induction false} ReplayIsStatements(codec: Codec, s: Store, log: seq<Attempt>)
    ensures Replay(codec, s, log) == ApplyAll(s, StmtsOf(codec, s, log))
  {
    if log != [] {
      var pre := log[..|log| - 1];
      ReplayIsStatements(codec, s, pre);
      ApplyAllConcat(s, StmtsOf(codec, s, pre), Add(codec, Replay(codec, s, pre), log[|log| - 1]).stmts);
    }
  }

  // ---------------------------------------------------------------------------------------------
  // The ABI in effect
  // ---------------------------------------------------------------------------------------------

  /** The ABI an attempt stores, read off the attempt alone. */
  function Stores(codec: Codec, a: Attempt): Option<SetAbiText> {
    var act := a.job.act;
    if |act.data| == 0 || !IsSetAbi(act) || !a.outcomes.storeAbi then None
    else
      match codec.setAbi(act.data)
      case None => None
      case Some(sa) =>
        match codec.abiDef(sa.abi) {
          case None => None
          case Some(text) => Some(SetAbiText(sa.account, text))
        }
  }

  datatype SetAbiText = SetAbiText(account: Name, text: string)

  /** The last ABI the log stores for `name`, or the one it starts with. */
  function AbiInEffect(codec: Codec, log: seq<Attempt>, base: string, name: Name): string {
    if log == [] then base
    else
      var stored := Stores(codec, log[|log| - 1]);
      if stored.Some? && stored.value.account == name then stored.value.text
      else AbiInEffect(codec, log[..|log| - 1], base, name)
  }

  /** Apart from `Stores`, no statement of an attempt concerns an ABI. */
  lemma OnlyStoresAbi(codec: Codec, abi: string, a: Attempt, name: Name)
    ensures var stored := Stores(codec, a);
            var head := if stored.Some? then [StoreAbi(stored.value.account, stored.value.text)] else [];
            && AddData(codec, abi, a.job.act, a.outcomes).stmts == head
            && head <= AddResult(codec, abi, a).stmts
            && Untouched(AddResult(codec, abi, a).stmts[|head|..], AbiOf(name))
  {
    hide ParseActions, Render, ToRecord;
    var act, o := a.job.act, a.outcomes;
    var p := AddData(codec, abi, act, o);
    ParseStoresNoAbi(codec, AbiAfter(p.stmts, abi, act.account), act, o, name);
    if codec.args(p.json).Some? {
      var record := if o.record then [RecordAction(ToRecord(a.job, p.json, codec.args(p.json).value))] else [];
      var parsed := ParseActions(codec, AbiAfter(p.stmts, abi, act.account), act, o);
      assert AddResult(codec, abi, a).stmts == p.stmts + (record + parsed);
      assert AddResult(codec, abi, a).stmts[|p.stmts|..] == record + parsed;
    }
  }

  lemma ParseStoresNoAbi(codec: Codec, abi: string, act: Action, o: Outcomes, name: Name)
    ensures Untouched(ParseActions(codec, abi, act, o), AbiOf(name))
  {
  }

  lemma AbiAfterAdd(codec: Codec, s: Store, a: Attempt, name: Name)
    requires ValidStore(s)
    ensures SelectAbi(ApplyAll(s, Add(codec, s, a).stmts).accounts, name) ==
            (var stored := Stores(codec, a);
             if stored.Some? && stored.value.account == name then stored.value.text else SelectAbi(s.accounts, name))
  {
    hide AddResult, ApplyAll, AddData, Stores;
    var stmts := Add(codec, s, a).stmts;
    var q := AbiOf(name);
    OnlyStoresAbi(codec, SelectAbi(s.accounts, a.job.act.account), a, name);
    var stored := Stores(codec, a);
    if stored.Some? {
      assert stmts == [StoreAbi(stored.value.account, stored.value.text)] + stmts[1..];
      OnlyHeadDecides(s, StoreAbi(stored.value.account, stored.value.text), stmts[1..], q);
    } else {
      assert stmts[0..] == stmts;
      TablesAreLastWrites(s, stmts, q);
    }
  }

  lemma OnlyHeadDecides(s: Store, head: Stmt, tail: seq<Stmt>, q: Query)
    requires ValidStore(s) && Untouched(tail, q)
    ensures Ask(ApplyAll(s, [head] + tail), q) == Answered(s, head, q)
  {
    var stmts := [head] + tail;
    TablesAreLastWrites(s, stmts, q);
    assert forall j :: 0 < j < |stmts| ==> stmts[j] == tail[j - 1];
    if Dictates(head, q).Some? {
      assert LastWrite(stmts, 0, q);
    } else {
      assert Untouched(stmts, q);
    }
  }

  lemma {:induction false} ReplayKeepsValid(codec: Codec, s: Store, log: seq<Attempt>)
    requires ValidStore(s)
    ensures ValidStore(Replay(codec, s, log))
  {
    ReplayIsStatements(codec, s, log);
    LogKeepsValid(s, StmtsOf(codec, s, log));
  }

  /** The table lookup finds the ABI of the last stored setabi of the account earlier in the log. */
  lemma {:induction false} LookupFindsAbiInEffect(codec: Codec, s: Store, log: seq<Attempt>, name: Name)
    requires ValidStore(s)
    ensures SelectAbi(Replay(codec, s, log).accounts, name)
            == AbiInEffect(codec, log, SelectAbi(s.accounts, name), name)
  {
    if log != [] {
      var pre := log[..|log| - 1];
      LookupFindsAbiInEffect(codec, s, pre, name);
      ReplayKeepsValid(codec, s, pre);
      AbiAfterAdd(codec, Replay(codec, s, pre), log[|log| - 1], name);
    }
  }

  /** What an attempt does, computed from the log before it and not from the tables. */
  function DirectResult(codec: Codec, s: Store, log: seq<Attempt>, a: Attempt): Result {
    var name := a.job.act.account;
    AddResult(codec, AbiInEffect(codec, log, SelectAbi(s.accounts, name), name), a)
  }

  /** The statements of a log, each attempt decoded with the ABI in effect at its place. */
  function DirectStmts(codec: Codec, s: Store, log: seq<Attempt>): seq<Stmt> {
    if log == [] then []
    else
      var pre := log[..|log| - 1];
      DirectStmts(codec, s, pre) + DirectResult(codec, s, pre, log[|log| - 1]).stmts
  }

  lemma {:induction false} StatementsAreDirect(codec: Codec, s: Store, log: seq<Attempt>)
    requires ValidStore(s)
    ensures StmtsOf(codec, s, log) == DirectStmts(codec, s, log)
  {
    if log != [] {
      var pre, a := log[..|log| - 1], log[|log| - 1];
      StatementsAreDirect(codec, s, pre);
      LookupFindsAbiInEffect(codec, s, pre, a.job.act.account);
    }
  }

  /** The refinement: after any log, with any statements failing, every keyed table answers as a
      last-writer query over statements computed from the log alone, and the append-only tables hold
      what those statements append. */
  lemma TablesAreDirectQuery(codec: Codec, s: Store, log: seq<Attempt>, q: Query)
    requires ValidStore(s)
    ensures var stmts := DirectStmts(codec, s, log);
            var t := Replay(codec, s, log);
            && (forall i: nat :: LastWrite(stmts, i, q) ==> Some(Ask(t, q)) == Dictates(stmts[i], q))
            && (Untouched(stmts, q) ==> Ask(t, q) == Ask(s, q))
            && (Untouched(stmts, q) || exists i: nat :: LastWrite(stmts, i, q))
            && t.actions == s.actions + Records(stmts)
            && t.keys == s.keys + KeysAdded(stmts)
  {
    StatementsAreDirect(codec, s, log);
    ReplayIsStatements(codec, s, log);
    TablesAreLastWrites(s, DirectStmts(codec, s, log), q);
    LogAppends(s, DirectStmts(codec, s, log));
  }

  /** The effect of a system action decoded with the built-in ABI. */
  function BuiltinStmts(codec: Codec, a: Attempt): seq<Stmt> {
    match codec.decode(codec.builtinAbi, a.job.act)
    case None => []
    case Some(v) => SystemStmts(codec, v, a.job.act, a.outcomes)
  }

  /** With no ABI stored for its account, an action is recorded with the empty object and changes no other
      table, unless it is the system account's, which falls back to the built-in ABI. */
  lemma NoAbiNoEffect(codec: Codec, s: Store, log: seq<Attempt>, a: Attempt)
    requires ValidStore(s) && !IsSetAbi(a.job.act)
    requires AbiInEffect(codec, log, SelectAbi(s.accounts, a.job.act.account), a.job.act.account) == ""
    ensures var r := Add(codec, Replay(codec, s, log), a);
            && (forall st :: st in r.stmts && st.RecordAction? ==> st.record.data == "{}")
            && (a.job.act.account != SYSTEM ==> forall st :: st in r.stmts ==> st.RecordAction?)
            && (a.job.act.account == SYSTEM ==>
                  forall st :: st in r.stmts && !st.RecordAction? ==> st in BuiltinStmts(codec, a))
            && (a.job.act.account == SYSTEM && !r.threw && a.outcomes.lookupAgain ==>
                  forall st :: st in BuiltinStmts(codec, a) ==> st in r.stmts)
  {
    hide AbiInEffect, Replay, SelectAbi;
    LookupFindsAbiInEffect(codec, s, log, a.job.act.account);
    NoRecordParsed(codec, "", a.job.act, a.outcomes);
  }

  lemma NoRecordParsed(codec: Codec, abi: string, act: Action, o: Outcomes)
    ensures forall st :: st in ParseActions(codec, abi, act, o) ==> !st.RecordAction?
  {
  }

  // ---------------------------------------------------------------------------------------------
  // Integrity under arbitrary statement failures
  // ---------------------------------------------------------------------------------------------

  ghost predicate KeysNamed(s: Store) {
    forall i :: 0 <= i < |s.keys| ==> Ask(s, AccountOf(s.keys[i].account)) == Present
  }

  predicate TouchedBefore(stmts: seq<Stmt>, i: nat, name: Name) {
    exists j :: 0 <= j < i && j < |stmts| && stmts[j] == TouchAccount(name)
  }

  /** Every key is inserted after its account in the same log. */
  ghost predicate Grounded(stmts: seq<Stmt>) {
    forall i :: 0 <= i < |stmts| && stmts[i].AddKey? ==> TouchedBefore(stmts, i, stmts[i].row.account)
  }

  lemma GroundedConcat(xs: seq<Stmt>, ys: seq<Stmt>)
    requires Grounded(xs) && Grounded(ys)
    ensures Grounded(xs + ys)
  {
    var zs := xs + ys;
    forall i | 0 <= i < |zs| && zs[i].AddKey? ensures TouchedBefore(zs, i, zs[i].row.account) {
      if i < |xs| {
        var j :| 0 <= j < i && xs[j] == TouchAccount(xs[i].row.account);
        assert zs[j] == xs[j];
      } else {
        var k := i - |xs|;
        assert zs[i] == ys[k] && TouchedBefore(ys, k, ys[k].row.account);
        var j :| 0 <= j < k && ys[j] == TouchAccount(ys[k].row.account);
        assert zs[j + |xs|] == ys[j];
      }
    }
  }

  lemma ParseIsGrounded(codec: Codec, abi: string, act: Action, o: Outcomes)
    ensures Grounded(ParseActions(codec, abi, act, o))
  {
    var stmts := ParseActions(codec, abi, act, o);
    if act.account == SYSTEM && act.name == "newaccount" && |stmts| > 0 {
      assert forall i :: 0 < i < |stmts| ==> stmts[i].AddKey? && stmts[0] == TouchAccount(stmts[i].row.account);
    } else {
      assert forall i :: 0 <= i < |stmts| ==> !stmts[i].AddKey?;
    }
  }

  lemma AddIsGrounded(codec: Codec, abi: string, a: Attempt)
    ensures Grounded(AddResult(codec, abi, a).stmts)
  {
    var act, o := a.job.act, a.outcomes;
    var p := AddData(codec, abi, act, o);
    if codec.args(p.json).Some? {
      var record := if o.record then [RecordAction(ToRecord(a.job, p.json, codec.args(p.json).value))] else [];
      ParseIsGrounded(codec, AbiAfter(p.stmts, abi, act.account), act, o);
      GroundedConcat(p.stmts, record);
      GroundedConcat(p.stmts + record, ParseActions(codec, AbiAfter(p.stmts, abi, act.account), act, o));
    }
  }

  lemma {:induction false} LogIsGrounded(codec: Codec, s: Store, log: seq<Attempt>)
    ensures Grounded(StmtsOf(codec, s, log))
  {
    if log != [] {
      var pre, a := log[..|log| - 1], log[|log| - 1];
      LogIsGrounded(codec, s, pre);
      var t := Replay(codec, s, pre);
      AddIsGrounded(codec, SelectAbi(t.accounts, a.job.act.account), a);
      GroundedConcat(StmtsOf(codec, s, pre), Add(codec, t, a).stmts);
    }
  }

  /** Accounts are never removed and a stored ABI is never taken back. */
  lemma NothingReverts(s: Store, stmts: seq<Stmt>, name: Name)
    requires ValidStore(s)
    ensures Ask(s, AccountOf(name)) == Present ==> Ask(ApplyAll(s, stmts), AccountOf(name)) == Present
    ensures Ask(s, AbiOf(name)).AnAbi? ==> Ask(ApplyAll(s, stmts), AbiOf(name)).AnAbi?
    ensures TouchedBefore(stmts, |stmts|, name) ==> Ask(ApplyAll(s, stmts), AccountOf(name)) == Present
  {
    NeverMissing(s, stmts, AccountOf(name));
    NeverMissing(s, stmts, AbiOf(name));
    if TouchedBefore(stmts, |stmts|, name) {
      var j :| 0 <= j < |stmts| && stmts[j] == TouchAccount(name);
      assert Dictates(stmts[j], AccountOf(name)).Some?;
    }
  }

  lemma NeverMissing(s: Store, stmts: seq<Stmt>, q: Query)
    requires ValidStore(s) && (q.AccountOf? || q.AbiOf?)
    ensures Ask(s, q) != Missing || !Untouched(stmts, q) ==> Ask(ApplyAll(s, stmts), q) != Missing
  {
    hide ApplyAll, Ask;
    TablesAreLastWrites(s, stmts, q);
  }

  lemma GroundedPrefix(stmts: seq<Stmt>, n: nat)
    requires Grounded(stmts) && n <= |stmts|
    ensures Grounded(stmts[..n])
  {
    var pre := stmts[..n];
    forall i | 0 <= i < n && pre[i].AddKey? ensures TouchedBefore(pre, i, pre[i].row.account) {
      assert TouchedBefore(stmts, i, stmts[i].row.account);
      var j :| 0 <= j < i && stmts[j] == TouchAccount(stmts[i].row.account);
      assert pre[j] == stmts[j];
    }
  }

  lemma ApplyKeepsNamed(s: Store, st: Stmt)
    requires ValidStore(s) && KeysNamed(s)
    requires st.AddKey? ==> Ask(s, AccountOf(st.row.account)) == Present
    ensures KeysNamed(Apply(s, st))
  {
    var t := Apply(s, st);
    forall i | 0 <= i < |t.keys| ensures Ask(t, AccountOf(t.keys[i].account)) == Present {
      ApplyAnswers(s, st, AccountOf(t.keys[i].account));
      if i < |s.keys| {
        assert t.keys[i] == s.keys[i];
      }
    }
  }

  lemma {:induction false} GroundedKeepsNamed(s: Store, stmts: seq<Stmt>)
    requires ValidStore(s) && KeysNamed(s) && Grounded(stmts)
    ensures KeysNamed(ApplyAll(s, stmts))
  {
    if stmts != [] {
      var n := |stmts| - 1;
      var pre, st := stmts[..n], stmts[n];
      GroundedPrefix(stmts, n);
      GroundedKeepsNamed(s, pre);
      LogKeepsValid(s, pre);
      if st.AddKey? {
        assert TouchedBefore(stmts, n, st.row.account);
        var j :| 0 <= j < n && stmts[j] == TouchAccount(st.row.account);
        assert pre[j] == stmts[j];
        NothingReverts(s, pre, st.row.account);
      }
      ApplyKeepsNamed(ApplyAll(s, pre), st);
    }
  }

  /** In every reachable state of the tables, whatever statements failed: unique keys hold, every key row
      names an existing account, and no account or stored ABI is ever lost. */
  lemma TablesStaySound(codec: Codec, s: Store, log: seq<Attempt>, name: Name)
    requires ValidStore(s) && KeysNamed(s)
    ensures ValidStore(Replay(codec, s, log)) && KeysNamed(Replay(codec, s, log))
    ensures Ask(s, AccountOf(name)) == Present ==> Ask(Replay(codec, s, log), AccountOf(name)) == Present
    ensures Ask(s, AbiOf(name)).AnAbi? ==> Ask(Replay(codec, s, log), AbiOf(name)).AnAbi?
  {
    ReplayIsStatements(codec, s, log);
    ReplayKeepsValid(codec, s, log);
    LogIsGrounded(codec, s, log);
    GroundedKeepsNamed(s, StmtsOf(codec, s, log));
    NothingReverts(s, StmtsOf(codec, s, log), name);
  }

  lemma {:induction false} KeysOfAddKeys(rows: seq<KeyRow>)
    ensures KeysAdded(AddKeys(rows)) == rows
  {
    if rows != [] {
      var n := |rows| - 1;
      KeysOfAddKeys(rows[..n]);
      assert AddKeys(rows)[..n] == AddKeys(rows[..n]);
    }
  }

  lemma {:induction false} KeysAddedConcat(xs: seq<Stmt>, ys: seq<Stmt>)
    ensures KeysAdded(xs + ys) == KeysAdded(xs) + KeysAdded(ys)
  {
    if ys == [] {
      assert xs + ys == xs;
    } else {
      assert (xs + ys)[..|xs + ys| - 1] == xs + ys[..|ys| - 1];
      KeysAddedConcat(xs, ys[..|ys| - 1]);
    }
  }

  lemma {:induction false} NoKeysAdded(stmts: seq<Stmt>)
    requires forall i :: 0 <= i < |stmts| ==> !stmts[i].AddKey?
    ensures KeysAdded(stmts) == []
  {
    if stmts != [] {
      NoKeysAdded(stmts[..|stmts| - 1]);
    }
  }

  lemma ParsedKeys(codec: Codec, abi: string, act: Action, o: Outcomes)
    ensures var added := KeysAdded(ParseActions(codec, abi, act, o));
            if act.account == SYSTEM && act.name == "newaccount" && codec.newAccount(act.data).Some?
            then added <= AllKeyRows(codec.newAccount(act.data).value)
            else added == []
  {
    hide KeysAdded, AllKeyRows;
    var parsed := ParseActions(codec, abi, act, o);
    if act.account == SYSTEM && act.name == "newaccount" && codec.newAccount(act.data).Some? && parsed != [] {
      var na := codec.newAccount(act.data).value;
      var rows := Prefix(AllKeyRows(na), o.keyInserts);
      assert parsed == [TouchAccount(na.name)] + AddKeys(rows);
      KeysAddedConcat([TouchAccount(na.name)], AddKeys(rows));
      NoKeysAdded([TouchAccount(na.name)]);
      KeysOfAddKeys(rows);
      assert [] + rows == rows;
    } else {
      NoKeysAdded(parsed);
    }
  }

  lemma OnlyParsedKeys(stored: seq<Stmt>, record: seq<Stmt>, parsed: seq<Stmt>)
    requires forall st :: st in stored + record ==> !st.AddKey?
    ensures KeysAdded(stored + record + parsed) == KeysAdded(parsed)
  {
    NoKeysAdded(stored + record);
    KeysAddedConcat(stored + record, parsed);
  }

  /** One recorded newaccount adds a prefix of its owner keys followed by its active keys; no other action
      adds a key. */
  lemma KeysAreAPrefix(codec: Codec, s: Store, a: Attempt)
    ensures var act := a.job.act;
            var added := KeysAdded(Add(codec, s, a).stmts);
            if act.account == SYSTEM && act.name == "newaccount" && codec.newAccount(act.data).Some?
            then added <= AllKeyRows(codec.newAccount(act.data).value)
            else added == []
  {
    var act, o := a.job.act, a.outcomes;
    var abi := SelectAbi(s.accounts, act.account);
    var p := AddData(codec, abi, act, o);
    if codec.args(p.json).Some? {
      var record := if o.record then [RecordAction(ToRecord(a.job, p.json, codec.args(p.json).value))] else [];
      OnlyParsedKeys(p.stmts, record, ParseActions(codec, AbiAfter(p.stmts, abi, act.account), act, o));
      ParsedKeys(codec, AbiAfter(p.stmts, abi, act.account), act, o);
    } else {
      NoKeysAdded(p.stmts);
    }
  }

  // ---------------------------------------------------------------------------------------------
  // Replaying a log twice
  // ---------------------------------------------------------------------------------------------

  /** The log stores an ABI for `name`. */
  predicate StoresFor(codec: Codec, log: seq<Attempt>, name: Name) {
    exists i :: 0 <= i < |log| && Stores(codec, log[i]).Some? && Stores(codec, log[i]).value.account == name
  }

  lemma {:induction false} AbiOverTwoLogs(codec: Codec, xs: seq<Attempt>, ys: seq<Attempt>, base: string, name: Name)
    ensures AbiInEffect(codec, xs + ys, base, name) == AbiInEffect(codec, ys, AbiInEffect(codec, xs, base, name), name)
    ensures StoresFor(codec, ys, name) ==> AbiInEffect(codec, ys, base, name) == AbiInEffect(codec, xs + ys, base, name)
    ensures !StoresFor(codec, ys, name) ==> AbiInEffect(codec, ys, base, name) == base
  {
    if ys == [] {
      assert xs + ys == xs;
    } else {
      var n := |ys| - 1;
      assert (xs + ys)[..|xs + ys| - 1] == xs + ys[..n];
      AbiOverTwoLogs(codec, xs, ys[..n], base, name);
      assert forall i :: 0 <= i < n ==> ys[..n][i] == ys[i];
      if StoresFor(codec, ys, name) && !(Stores(codec, ys[n]).Some? && Stores(codec, ys[n]).value.account == name) {
        var i :| 0 <= i < |ys| && Stores(codec, ys[i]).Some? && Stores(codec, ys[i]).value.account == name;
        assert ys[..n][i] == ys[i];
      }
    }
  }

  /** Action `i` was recorded when the log had not yet stored an ABI for its account, but the log does store
      one, at `i` or later. */
  predicate BeforeItsAbi(codec: Codec, log: seq<Attempt>, i: nat)
    requires i < |log|
  {
    var name := log[i].job.act.account;
    StoresFor(codec, log, name) && !StoresFor(codec, log[..i], name)
  }

  /** The ABI a second pass over the log decodes action `i` with, read off the log: what the log has stored
      again by then, or else what the first pass stored last. */
  function SecondAbi(codec: Codec, s: Store, log: seq<Attempt>, i: nat): string
    requires i < |log|
  {
    var name := log[i].job.act.account;
    AbiInEffect(codec, if BeforeItsAbi(codec, log, i) then log else log[..i], SelectAbi(s.accounts, name), name)
  }

  lemma AbiAgain(codec: Codec, log: seq<Attempt>, i: nat, base: string, name: Name)
    requires i <= |log|
    ensures AbiInEffect(codec, log[..i], AbiInEffect(codec, log, base, name), name)
            == AbiInEffect(codec, if StoresFor(codec, log[..i], name) then log[..i] else log, base, name)
    ensures !StoresFor(codec, log, name) ==>
              AbiInEffect(codec, log, base, name) == AbiInEffect(codec, log[..i], base, name)
  {
    hide AbiInEffect, StoresFor;
    AbiOverTwoLogs(codec, log, log[..i], base, name);
    AbiOverTwoLogs(codec, log, log[..i], AbiInEffect(codec, log, base, name), name);
    AbiOverTwoLogs(codec, [], log, base, name);
    if StoresFor(codec, log[..i], name) {
      StoresLater(codec, log, i, name);
    }
  }

  lemma SecondPassReads(codec: Codec, s: Store, log: seq<Attempt>, i: nat)
    requires ValidStore(s) && i < |log|
    ensures DirectResult(codec, Replay(codec, s, log), log[..i], log[i])
            == AddResult(codec, SecondAbi(codec, s, log, i), log[i])
  {
    hide AddResult, AbiInEffect, StoresFor, SelectAbi;
    var name := log[i].job.act.account;
    LookupFindsAbiInEffect(codec, s, log, name);
    AbiAgain(codec, log, i, SelectAbi(s.accounts, name), name);
    if StoresFor(codec, log[..i], name) {
      StoresLater(codec, log, i, name);
    }
  }

  lemma StoresLater(codec: Codec, log: seq<Attempt>, i: nat, name: Name)
    requires i <= |log| && StoresFor(codec, log[..i], name)
    ensures StoresFor(codec, log, name)
  {
    var j :| 0 <= j < i && Stores(codec, log[..i][j]).Some? && Stores(codec, log[..i][j]).value.account == name;
    assert log[..i][j] == log[j];
  }

  /** A second pass brings every action to the same result as the first one. */
  ghost predicate SameEffects(codec: Codec, s: Store, log: seq<Attempt>) {
    forall i :: 0 <= i < |log| ==>
      DirectResult(codec, Replay(codec, s, log), log[..i], log[i]) == DirectResult(codec, s, log[..i], log[i])
  }

  /** Said of the log and the initial tables alone: each action recorded before its account's first ABI comes
      to the same result under the last ABI the log stores for the account as under the initial one. */
  ghost predicate LateAbisHarmless(codec: Codec, s: Store, log: seq<Attempt>) {
    forall i :: 0 <= i < |log| && BeforeItsAbi(codec, log, i) ==>
      AddResult(codec, AbiInEffect(codec, log, BaseAbi(s, log[i]), log[i].job.act.account), log[i])
      == AddResult(codec, BaseAbi(s, log[i]), log[i])
  }

  /** The ABI an action's account starts with. */
  function BaseAbi(s: Store, a: Attempt): string {
    SelectAbi(s.accounts, a.job.act.account)
  }

  lemma SameResultAt(codec: Codec, s: Store, log: seq<Attempt>, i: nat)
    requires ValidStore(s) && i < |log|
    ensures (DirectResult(codec, Replay(codec, s, log), log[..i], log[i]) == DirectResult(codec, s, log[..i], log[i]))
            <==> (BeforeItsAbi(codec, log, i) ==>
                    AddResult(codec, AbiInEffect(codec, log, BaseAbi(s, log[i]), log[i].job.act.account), log[i])
                    == AddResult(codec, BaseAbi(s, log[i]), log[i]))
  {
    hide AddResult;
    var name := log[i].job.act.account;
    SecondPassReads(codec, s, log, i);
    AbiOverTwoLogs(codec, [], log[..i], BaseAbi(s, log[i]), name);
    assert [] + log[..i] == log[..i];
  }

  /** Exactly when a second pass has the effects of the first. */
  lemma SecondPassExactly(codec: Codec, s: Store, log: seq<Attempt>)
    requires ValidStore(s)
    ensures SameEffects(codec, s, log) <==> LateAbisHarmless(codec, s, log)
  {
    hide AddResult, DirectResult, BeforeItsAbi;
    forall i | 0 <= i < |log|
      ensures (DirectResult(codec, Replay(codec, s, log), log[..i], log[i]) == DirectResult(codec, s, log[..i], log[i]))
              <==> (BeforeItsAbi(codec, log, i) ==>
                      AddResult(codec, AbiInEffect(codec, log, BaseAbi(s, log[i]), log[i].job.act.account), log[i])
                      == AddResult(codec, BaseAbi(s, log[i]), log[i]))
    {
      SameResultAt(codec, s, log, i);
    }
  }

  /** In particular when no account's first ABI is stored after an action of the account. */
  lemma AbiBeforeUseSuffices(codec: Codec, s: Store, log: seq<Attempt>)
    requires ValidStore(s)
    requires forall i :: 0 <= i < |log| ==> !BeforeItsAbi(codec, log, i)
    ensures SameEffects(codec, s, log)
  {
    SecondPassExactly(codec, s, log);
  }

  lemma {:induction false} SameResultsSameStmts(codec: Codec, s: Store, t: Store, log: seq<Attempt>, n: nat)
    requires n <= |log|
    requires forall i :: 0 <= i < n ==>
               DirectResult(codec, t, log[..i], log[i]) == DirectResult(codec, s, log[..i], log[i])
    ensures DirectStmts(codec, t, log[..n]) == DirectStmts(codec, s, log[..n])
  {
    hide DirectResult;
    if n > 0 {
      SameResultsSameStmts(codec, s, t, log, n - 1);
      assert log[..n][..n - 1] == log[..n - 1] && log[..n][n - 1] == log[n - 1];
    }
  }

  lemma SameEffectsSameStmts(codec: Codec, s: Store, log: seq<Attempt>)
    requires SameEffects(codec, s, log)
    ensures DirectStmts(codec, Replay(codec, s, log), log) == DirectStmts(codec, s, log)
  {
    SameResultsSameStmts(codec, s, Replay(codec, s, log), log, |log|);
    assert log[..|log|] == log;
  }

  /** When late ABIs are harmless, replaying a log a second time leaves the contents of accounts, votes,
      proposals and assets as they were, and appends every action record and every key row once more. */
  lemma ReplayTwice(codec: Codec, s: Store, log: seq<Attempt>)
    requires ValidStore(s) && LateAbisHarmless(codec, s, log)
    ensures var once, twice := Replay(codec, s, log), Replay(codec, Replay(codec, s, log), log);
            var stmts := DirectStmts(codec, s, log);
            && (forall q :: Ask(twice, q) == Ask(once, q))
            && twice.actions == s.actions + Records(stmts) + Records(stmts)
            && twice.keys == s.keys + KeysAdded(stmts) + KeysAdded(stmts)
  {
    hide DirectStmts, Replay, StmtsOf, LateAbisHarmless, SameEffects;
    var once := Replay(codec, s, log);
    SecondPassExactly(codec, s, log);
    SameEffectsSameStmts(codec, s, log);
    ReplayKeepsValid(codec, s, log);
    StatementsAreDirect(codec, s, log);
    StatementsAreDirect(codec, once, log);
    ReplayIsStatements(codec, s, log);
    ReplayIsStatements(codec, once, log);
    StatementsTwice(s, StmtsOf(codec, s, log));
  }

  /** The statements of a second pass, read off the log. */
  function SecondStmts(codec: Codec, s: Store, log: seq<Attempt>, n: nat): seq<Stmt>
    requires n <= |log|
  {
    if n == 0 then []
    else SecondStmts(codec, s, log, n - 1) + AddResult(codec, SecondAbi(codec, s, log, n - 1), log[n - 1]).stmts
  }

  lemma {:induction false} SecondPassStmts(codec: Codec, s: Store, log: seq<Attempt>, n: nat)
    requires ValidStore(s) && n <= |log|
    ensures DirectStmts(codec, Replay(codec, s, log), log[..n]) == SecondStmts(codec, s, log, n)
  {
    hide AddResult, DirectResult, SecondAbi, Replay;
    if n > 0 {
      SecondPassStmts(codec, s, log, n - 1);
      assert log[..n][..n - 1] == log[..n - 1] && log[..n][n - 1] == log[n - 1];
      SecondPassReads(codec, s, log, n - 1);
    }
  }

  /** Exactly when a second replay keeps its promise, whatever the effects on the way: both passes append
      the same rows, and each key the second pass concerns gets from it what it had from the first. */
  lemma ReplayTwiceExactly(codec: Codec, s: Store, log: seq<Attempt>)
    requires ValidStore(s)
    ensures var once, twice := Replay(codec, s, log), Replay(codec, Replay(codec, s, log), log);
            var first, second := DirectStmts(codec, s, log), SecondStmts(codec, s, log, |log|);
            && (forall q :: Ask(twice, q) == Ask(once, q))
            && twice.actions == once.actions + Records(first)
            && twice.keys == once.keys + KeysAdded(first)
            <==>
            && (forall q :: Untouched(second, q) || AnswerAfter(s, second, q) == AnswerAfter(s, first, q))
            && Records(second) == Records(first)
            && KeysAdded(second) == KeysAdded(first)
  {
    hide DirectStmts, Replay, StmtsOf, SecondStmts;
    var once := Replay(codec, s, log);
    ReplayKeepsValid(codec, s, log);
    StatementsAreDirect(codec, s, log);
    StatementsAreDirect(codec, once, log);
    ReplayIsStatements(codec, s, log);
    ReplayIsStatements(codec, once, log);
    SecondPassStmts(codec, s, log, |log|);
    assert log[..|log|] == log;
    SecondStatements(s, StmtsOf(codec, s, log), StmtsOf(codec, once, log));
  }

  const LATE := "mytoken"

  /** A codec under which every action reads as the creation of one asset, and every setabi is `LATE`'s. */
  const PLAIN := Codec(
    "builtin",
    (abi, act) => Some(Object(map["issuer" := Text("a"), "maximum_supply" := Text("1 S")])),
    v => "{}", v => Some("a"), v => Some(Asset(1, 0, "S")), data => None,
    data => Some(SetAbi(LATE, [])), data => Some("abi"), json => Some(Args("", "", "", "", "", "")))

  const FINE := Outcomes(true, true, true, true, true, 0)
  const CREATE := Attempt(Job(Action(LATE, "create", [], [0]), "", 0), FINE)
  const STORE := Attempt(Job(Action(SYSTEM, "setabi", [], [0]), "", 0), FINE)

  const CREATED := CreateAsset(AssetKey("S", LATE), AssetInfo(0, 1, 0, "a"))

  lemma CreateParses(abi: string)
    ensures ParseActions(PLAIN, abi, CREATE.job.act, FINE) == if abi == "" then [] else [CREATED]
  {
  }

  lemma CreateAdds(abi: string) returns (record: ActionRecord)
    ensures AddResult(PLAIN, abi, CREATE).stmts == [RecordAction(record)] + if abi == "" then [] else [CREATED]
  {
    record := ToRecord(CREATE.job, "{}", Args("", "", "", "", "", ""));
    CreateParses(abi);
  }

  lemma CreateAddsAsset(s: Store)
    requires ValidStore(s)
    ensures Ask(ApplyAll(s, Add(PLAIN, s, CREATE).stmts), AssetOf(AssetKey("S", LATE))) ==
            if SelectAbi(s.accounts, LATE) == "" then Ask(s, AssetOf(AssetKey("S", LATE)))
            else AnAsset(AssetInfo(0, 1, 0, "a"))
  {
    hide AddResult, SelectAbi;
    var abi, q := SelectAbi(s.accounts, LATE), AssetOf(AssetKey("S", LATE));
    var record := CreateAdds(abi);
    var stmts := AddResult(PLAIN, abi, CREATE).stmts;
    TablesAreLastWrites(s, stmts, q);
    if abi == "" {
      assert stmts == [RecordAction(record)] && Untouched(stmts, q);
    } else {
      assert stmts == [RecordAction(record), CREATED] && LastWrite(stmts, 1, q);
    }
  }

  lemma StoreAddsNoAsset(s: Store)
    requires ValidStore(s)
    ensures Ask(ApplyAll(s, Add(PLAIN, s, STORE).stmts), AssetOf(AssetKey("S", LATE)))
            == Ask(s, AssetOf(AssetKey("S", LATE)))
  {
    TablesAreLastWrites(s, Add(PLAIN, s, STORE).stmts, AssetOf(AssetKey("S", LATE)));
  }

  /** The condition matters: a token created before its contract's ABI is stored has no effect in the
      first pass, and one in the second. */
  lemma ReplayCanDiffer() returns (log: seq<Attempt>, q: Query)
    ensures !LateAbisHarmless(PLAIN, EMPTY_STORE, log)
    ensures var once := Replay(PLAIN, EMPTY_STORE, log);
            Ask(once, q) == Missing && Ask(Replay(PLAIN, once, log), q) != Missing
  {
    hide Replay, Add, DirectStmts, LateAbisHarmless;
    log, q := [CREATE, STORE], AssetOf(AssetKey("S", LATE));
    var once := TwoSteps(EMPTY_STORE);
    LookupFindsAbiInEffect(PLAIN, EMPTY_STORE, log, LATE);
    assert Stores(PLAIN, STORE) == Some(SetAbiText(LATE, "abi"));
    var twice := TwoSteps(once);
    if LateAbisHarmless(PLAIN, EMPTY_STORE, log) {
      ReplayTwice(PLAIN, EMPTY_STORE, log);
    }
  }

  lemma TwoSteps(s: Store) returns (t: Store)
    requires ValidStore(s)
    ensures t == Replay(PLAIN, s, [CREATE, STORE]) && ValidStore(t)
    ensures Ask(t, AssetOf(AssetKey("S", LATE))) ==
            if SelectAbi(s.accounts, LATE) == "" then Ask(s, AssetOf(AssetKey("S", LATE)))
            else AnAsset(AssetInfo(0, 1, 0, "a"))
  {
    hide Add;
    t := Replay(PLAIN, s, [CREATE, STORE]);
    assert [CREATE, STORE][..1] == [CREATE] && [CREATE][..0] == [];
    var u := ApplyAll(s, Add(PLAIN, s, CREATE).stmts);
    assert u == Replay(PLAIN, s, [CREATE]);
    assert t == ApplyAll(u, Add(PLAIN, u, STORE).stmts);
    ReplayKeepsValid(PLAIN, s, [CREATE]);
    ReplayKeepsValid(PLAIN, s, [CREATE, STORE]);
    CreateAddsAsset(s);
    StoreAddsNoAsset(u);
  }
}
