/**
 Token listings: `get_tokens`, `get_all_tokens` and `get_hold_tokens` over the assets table and the prefix
 scan of the chain index.
 */
module Listings {
  import opened Common
  import opened Traces
  import opened Amounts
  import opened ChainIndex
  import Meaning = ActionMeaning
  import Model = ActionsTable
  import Statements
  import Tables

  datatype Balance = Balance(amount: Int64, decimals: nat, symbol: string)

  /** A balance as the chain stores it: a valid symbol, and never the least 64-bit amount. */
  type StoredBalance = b: Balance | b.amount != MIN_INT64 && b.decimals <= MAX_DECIMALS witness Balance(0, 0, "")

  /** The decimals of a valid symbol. */
  type Decimals = d: nat | d <= MAX_DECIMALS

  /** Code outside the repository; None is a thrown exception. */
  datatype Reader = Reader(
    decode: seq<Byte> -> Option<StoredBalance>,          // size check, unpacking, symbol validation
    listsAccounts: Name -> bool,                          // the contract has an ABI with an `accounts` table
    symbolOf: (nat, string) -> Option<Decimals>           // the symbol of a precision and name
  )

  /** A row of `get_assets`. */
  datatype AssetRow = AssetRow(contract: Name, precision: nat, symbol: string)

  datatype Token = Token(contract: Name, quantity: string, symbol: string, precision: nat)

  /** What a scan for one symbol comes to. */
  datatype Scan = NoTable | Found(balance: StoredBalance) | NotFound

  predicate MatchesAt(reader: Reader, rows: seq<KvRow>, symbol: string, i: nat)
    requires i < |rows|
  {
    reader.decode(rows[i].value).Some? && reader.decode(rows[i].value).value.symbol == symbol
  }

  /** The first row that is not a readable balance in another symbol, if it is one in this symbol. */
  function Search(reader: Reader, rows: seq<KvRow>, symbol: string): Option<StoredBalance> {
    if rows == [] || reader.decode(rows[0].value).None? then None
    else if MatchesAt(reader, rows, symbol, 0) then reader.decode(rows[0].value)
    else Search(reader, rows[1..], symbol)
  }

  /** A balance is found exactly when some row holds it, and every row before it reads as another symbol. */
  lemma {:induction false} SearchMeaning(reader: Reader, rows: seq<KvRow>, symbol: string)
    ensures Search(reader, rows, symbol).Some? <==>
            exists i :: 0 <= i < |rows| && MatchesAt(reader, rows, symbol, i)
                        && forall j :: 0 <= j < i ==> reader.decode(rows[j].value).Some?
    ensures forall i :: 0 <= i < |rows| && MatchesAt(reader, rows, symbol, i)
                        && (forall j :: 0 <= j < i ==>
                              reader.decode(rows[j].value).Some? && !MatchesAt(reader, rows, symbol, j))
                        ==> Search(reader, rows, symbol) == reader.decode(rows[i].value)
  {
    if rows != [] {
      var rest := rows[1..];
      SearchMeaning(reader, rest, symbol);
      assert forall i :: 0 <= i < |rest| ==>
                           (MatchesAt(reader, rest, symbol, i) <==> MatchesAt(reader, rows, symbol, i + 1));
      assert forall i :: 0 < i < |rows| ==> rows[i] == rest[i - 1];
    }
  }

  function AccountsOf(contract: Name, account: Name): TableId {
    TableId(contract, account, "accounts")
  }

  function ScanFor(reader: Reader, chain: Chain, account: Name, contract: Name, symbol: string): Scan {
    var id := AccountsOf(contract, account);
    if !reader.listsAccounts(contract) then NotFound
    else if id !in chain.tables then NoTable
    else
      match Search(reader, RowsOf(chain.index, chain.tables[id]), symbol)
      case None => NotFound
      case Some(b) => Found(b)
  }

  function HeldToken(contract: Name, symbol: string, b: StoredBalance): Token {
    Token(contract, AmountToString(b.amount, b.decimals), symbol, b.decimals)
  }

  /** The token listed for an account that has no table of the contract: none if the symbol is invalid. */
  function Placeholder(reader: Reader, row: AssetRow): seq<Token> {
    match reader.symbolOf(row.precision, row.symbol)
    case None => []
    case Some(d) => [Token(row.contract, AmountToString(0, d), row.symbol, row.precision)]
  }

  function HoldFor(reader: Reader, chain: Chain, account: Name, row: AssetRow): seq<Token> {
    match ScanFor(reader, chain, account, row.contract, row.symbol)
    case Found(b) => [HeldToken(row.contract, row.symbol, b)]
    case _ => []
  }

  function AllFor(reader: Reader, chain: Chain, account: Name, row: AssetRow): seq<Token> {
    match ScanFor(reader, chain, account, row.contract, row.symbol)
    case Found(b) => [HeldToken(row.contract, row.symbol, b)]
    case NoTable => Placeholder(reader, row)
    case NotFound => []
  }

  /** The full listing of some assets, and the holdings alone. */
  function AllTokens(reader: Reader, chain: Chain, account: Name, rows: seq<AssetRow>): seq<Token> {
    if rows == [] then []
    else AllTokens(reader, chain, account, rows[..|rows| - 1]) + AllFor(reader, chain, account, rows[|rows| - 1])
  }

  function HoldTokens(reader: Reader, chain: Chain, account: Name, rows: seq<AssetRow>): seq<Token> {
    if rows == [] then []
    else HoldTokens(reader, chain, account, rows[..|rows| - 1]) + HoldFor(reader, chain, account, rows[|rows| - 1])
  }

  /** SQL LIMIT. */
  function Limit<T>(xs: seq<T>, start: nat, count: nat): seq<T> {
    if start >= |xs| then [] else if start + count >= |xs| then xs[start..] else xs[start..start + count]
  }

  /** `get_assets`: the assets table in id order. */
  function AssetRows(s: Statements.Store): seq<AssetRow> {
    seq(|s.assets.rows|, i requires 0 <= i < |s.assets.rows| =>
      AssetRow(s.assets.rows[i].key.owner, s.assets.rows[i].value.precision, s.assets.rows[i].key.symbol))
  }

  function KeyOfRow(row: AssetRow): Statements.AssetKey {
    Statements.AssetKey(row.symbol, row.contract)
  }

  /** The position of the last create of a listed asset, -1 if there is none. */
  function LastCreate(stmts: seq<Statements.Stmt>, row: AssetRow): int {
    Statements.LastIndex(stmts, Statements.AssetOf(KeyOfRow(row)))
  }

  /** The last create of a listed asset exists and gave it its precision. */
  predicate LastCreated(stmts: seq<Statements.Stmt>, row: AssetRow) {
    var i := LastCreate(stmts, row);
    i >= 0 && stmts[i].CreateAsset? && stmts[i].asset == KeyOfRow(row) && stmts[i].info.precision == row.precision
  }

  /** With no assets to begin with, the tables list every created asset, each once, with the precision of its
      last create, in the order of these creates. */
  lemma AssetRowsAreLastCreates(s: Statements.Store, stmts: seq<Statements.Stmt>, rows: seq<AssetRow>)
    requires Statements.ValidStore(s) && s.assets.rows == []
    requires rows == AssetRows(Statements.ApplyAll(s, stmts))
    ensures forall a :: 0 <= a < |rows| ==> LastCreated(stmts, rows[a])
    ensures forall a, b :: 0 <= a < b < |rows| ==> LastCreate(stmts, rows[a]) < LastCreate(stmts, rows[b])
    ensures forall st :: st in stmts && st.CreateAsset? ==> exists a :: 0 <= a < |rows| && KeyOfRow(rows[a]) == st.asset
  {
    var t := Statements.ApplyAll(s, stmts).assets;
    Statements.LogKeepsValid(s, stmts);
    Statements.AssetsListedByLastCreate(s, stmts);
    forall a | 0 <= a < |rows| ensures LastCreated(stmts, rows[a]) {
      Tables.FindUnique(t, a);
      assert t.rows[a].key == KeyOfRow(rows[a]);
      ListedIsCreated(s, stmts, t.rows[a].key);
    }
    forall st | st in stmts && st.CreateAsset? ensures exists a :: 0 <= a < |rows| && KeyOfRow(rows[a]) == st.asset {
      ListedIsCreated(s, stmts, st.asset);
      var a := Tables.Find(t.rows, st.asset);
      assert KeyOfRow(rows[a]) == st.asset;
    }
  }

  /** Action `i` of the log is the last to create the asset of the row, and gave it its precision. */
  ghost predicate CreatedLastAt(codec: Model.Codec, s: Statements.Store, log: seq<Model.Attempt>, i: nat, row: AssetRow)
  {
    exists info ::
      && Meaning.CreatesAt(codec, s, log, i, Statements.AssetKey(row.symbol, row.contract), info)
      && info.precision == row.precision
      && Meaning.AssetRestsAfter(codec, s, log, i, Statements.AssetKey(row.symbol, row.contract))
  }

  ghost predicate IsCreated(codec: Model.Codec, s: Statements.Store, log: seq<Model.Attempt>, row: AssetRow) {
    exists i: nat :: CreatedLastAt(codec, s, log, i, row)
  }

  ghost predicate CreatedInOrder(codec: Model.Codec, s: Statements.Store, log: seq<Model.Attempt>, x: AssetRow,
                                 y: AssetRow)
  {
    exists a: nat, b: nat :: a < b && CreatedLastAt(codec, s, log, a, x) && CreatedLastAt(codec, s, log, b, y)
  }

  lemma LastCreateIsAction(codec: Model.Codec, s: Statements.Store, log: seq<Model.Attempt>, row: AssetRow)
    requires LastCreated(Meaning.Deeds(codec, s, log), row)
    ensures CreatedLastAt(codec, s, log, LastCreate(Meaning.Deeds(codec, s, log), row), row)
  {
    hide Meaning.Deeds, Meaning.ConcernsAsset, Meaning.CreatesAt;
    var deeds, k := Meaning.Deeds(codec, s, log), KeyOfRow(row);
    var i: nat := LastCreate(deeds, row);
    Meaning.DeedsLength(codec, s, log);
    forall j: nat | j < |log|
      ensures Statements.Dictates(deeds[j], Statements.AssetOf(k)).Some? <==> Meaning.ConcernsAsset(codec, s, log, j, k)
    {
      Meaning.AssetDeed(codec, s, log, j, k);
    }
    Meaning.AssetDeed(codec, s, log, i, k);
    assert Meaning.CreatesAt(codec, s, log, i, k, deeds[i].info);
    assert Statements.LastWrite(deeds, i, Statements.AssetOf(k));
  }

  /** The same of the actions: with no assets to begin with, after any log with any statements failing, the
      assets query lists every asset some action has created, each once, with the precision of its last create,
      in the order of these creates. */
  lemma AssetsAfterLog(codec: Model.Codec, s: Statements.Store, log: seq<Model.Attempt>, rows: seq<AssetRow>)
    requires Statements.ValidStore(s) && s.assets.rows == [] && rows == AssetRows(Model.Replay(codec, s, log))
    ensures forall a :: 0 <= a < |rows| ==> IsCreated(codec, s, log, rows[a])
    ensures forall a, b :: 0 <= a < b < |rows| ==> CreatedInOrder(codec, s, log, rows[a], rows[b])
    ensures forall i: nat, k :: i < |log| && Meaning.ConcernsAsset(codec, s, log, i, k) ==>
              exists a :: 0 <= a < |rows| && Statements.AssetKey(rows[a].symbol, rows[a].contract) == k
  {
    hide Model.Replay, Meaning.Deeds, CreatedLastAt, Statements.ApplyAll, LastCreate, Meaning.ConcernsAsset;
    var deeds := Meaning.Deeds(codec, s, log);
    Meaning.TablesAreDeeds(codec, s, log);
    Meaning.DeedsLength(codec, s, log);
    AssetRowsAreLastCreates(s, deeds, rows);
    forall a | 0 <= a < |rows|
      ensures LastCreate(deeds, rows[a]) >= 0 && CreatedLastAt(codec, s, log, LastCreate(deeds, rows[a]), rows[a])
    {
      LastCreateIsAction(codec, s, log, rows[a]);
    }
    forall a | 0 <= a < |rows| ensures IsCreated(codec, s, log, rows[a]) {
      var i: nat := LastCreate(deeds, rows[a]);
      assert CreatedLastAt(codec, s, log, i, rows[a]);
    }
    forall a, b | 0 <= a < b < |rows| ensures CreatedInOrder(codec, s, log, rows[a], rows[b]) {
      var x: nat, y: nat := LastCreate(deeds, rows[a]), LastCreate(deeds, rows[b]);
      assert x < y && CreatedLastAt(codec, s, log, x, rows[a]) && CreatedLastAt(codec, s, log, y, rows[b]);
    }
    forall i: nat, k | i < |log| && Meaning.ConcernsAsset(codec, s, log, i, k)
      ensures exists a :: 0 <= a < |rows| && Statements.AssetKey(rows[a].symbol, rows[a].contract) == k
    {
      Meaning.AssetDeed(codec, s, log, i, k);
      assert deeds[i] in deeds && deeds[i].CreateAsset? && deeds[i].asset == k;
      var a :| 0 <= a < |rows| && KeyOfRow(rows[a]) == k;
    }
  }

  lemma ListedIsCreated(s: Statements.Store, stmts: seq<Statements.Stmt>, k: Statements.AssetKey)
    requires Statements.ValidStore(s) && s.assets.rows == []
    ensures var i := Statements.LastIndex(stmts, Statements.AssetOf(k));
            var found := Tables.Get(Statements.ApplyAll(s, stmts).assets, k);
            && (i < 0 ==> found == None && forall st :: st in stmts && st.CreateAsset? ==> st.asset != k)
            && (i >= 0 ==> stmts[i].CreateAsset? && stmts[i].asset == k && found == Some(stmts[i].info))
  {
    var q := Statements.AssetOf(k);
    Statements.TablesAreLastWrites(s, stmts, q);
    var i := Statements.LastIndex(stmts, q);
    if i < 0 {
      forall st | st in stmts && st.CreateAsset? ensures st.asset != k {
        var j :| 0 <= j < |stmts| && stmts[j] == st;
        assert Statements.Dictates(stmts[j], q).None?;
      }
    } else {
      assert Statements.LastWrite(stmts, i, q);
    }
  }

  // ---------------------------------------------------------------------------------------------
  // What a listing holds
  // ---------------------------------------------------------------------------------------------

  /** Row `i` is a balance in the symbol, and every row before it reads as a balance in another one. */
  ghost predicate FirstHolding(reader: Reader, rows: seq<KvRow>, symbol: string, i: nat, b: StoredBalance) {
    && i < |rows| && reader.decode(rows[i].value) == Some(b) && b.symbol == symbol
    && forall j :: 0 <= j < i ==> OtherBalance(reader, rows[j], symbol)
  }

  predicate OtherBalance(reader: Reader, row: KvRow, symbol: string) {
    reader.decode(row.value).Some? && reader.decode(row.value).value.symbol != symbol
  }

  /** The account holds `b` of the asset: in the contract's table `accounts`, in the scope of the account. */
  ghost predicate Holding(reader: Reader, chain: Chain, account: Name, row: AssetRow, b: StoredBalance) {
    && reader.listsAccounts(row.contract) && TableId(row.contract, account, "accounts") in chain.tables
    && var rows := RowsOf(chain.index, chain.tables[TableId(row.contract, account, "accounts")]);
       exists i: nat :: FirstHolding(reader, rows, row.symbol, i, b)
  }

  /** The quantity is the one canonical text that reads as the amount. */
  predicate Writes(quantity: string, decimals: nat, amount: int) {
    Canonical(quantity, decimals) && ParseAmount(quantity, decimals) == Some(amount)
  }

  predicate ShowsHolding(row: AssetRow, b: StoredBalance, t: Token) {
    && t.contract == row.contract && t.symbol == row.symbol && t.precision == b.decimals
    && Writes(t.quantity, b.decimals, b.amount as int)
  }

  /** The contract has no table for the account, so a zero stands in, if the symbol is valid. */
  predicate StandsIn(reader: Reader, chain: Chain, account: Name, row: AssetRow) {
    && reader.listsAccounts(row.contract) && TableId(row.contract, account, "accounts") !in chain.tables
    && reader.symbolOf(row.precision, row.symbol).Some?
  }

  predicate ShowsZero(reader: Reader, row: AssetRow, t: Token) {
    && t.contract == row.contract && t.symbol == row.symbol && t.precision == row.precision
    && reader.symbolOf(row.precision, row.symbol).Some?
    && Writes(t.quantity, reader.symbolOf(row.precision, row.symbol).value, 0)
  }

  /** The three listings: holdings alone, all assets, and requested assets, where nothing stands in for more than
      18 decimals. */
  datatype Listing = Holdings | All | Requested

  predicate Admits(which: Listing, row: AssetRow) {
    which.All? || (which.Requested? && row.precision <= 18)
  }

  ghost predicate IsListed(reader: Reader, chain: Chain, account: Name, which: Listing, row: AssetRow) {
    || (exists b :: Holding(reader, chain, account, row, b))
    || (Admits(which, row) && StandsIn(reader, chain, account, row))
  }

  ghost predicate ListedAs(reader: Reader, chain: Chain, account: Name, which: Listing, row: AssetRow, t: Token) {
    || (exists b :: Holding(reader, chain, account, row, b) && ShowsHolding(row, b, t))
    || (Admits(which, row) && StandsIn(reader, chain, account, row) && ShowsZero(reader, row, t))
  }

  /** `tokens` are those of the assets at `at`, in the order of the assets. */
  ghost predicate AreTokens(reader: Reader, chain: Chain, account: Name, which: Listing, rows: seq<AssetRow>,
                            at: seq<nat>, tokens: seq<Token>)
  {
    && |at| == |tokens| && Increasing(at)
    && (forall i: nat :: i in at <==> i < |rows| && IsListed(reader, chain, account, which, rows[i]))
    && (forall j :: 0 <= j < |at| ==>
          at[j] < |rows| && ListedAs(reader, chain, account, which, rows[at[j]], tokens[j]))
  }

  ghost predicate RightTokens(reader: Reader, chain: Chain, account: Name, which: Listing, rows: seq<AssetRow>,
                              tokens: seq<Token>)
  {
    exists at :: AreTokens(reader, chain, account, which, rows, at, tokens)
  }

  lemma HoldingTail(reader: Reader, rows: seq<KvRow>, symbol: string, i: nat, b: StoredBalance)
    requires rows != [] && OtherBalance(reader, rows[0], symbol)
    ensures FirstHolding(reader, rows, symbol, i + 1, b) <==> FirstHolding(reader, rows[1..], symbol, i, b)
    ensures !FirstHolding(reader, rows, symbol, 0, b)
  {
    assert forall j :: 0 <= j < |rows[1..]| ==> rows[1..][j] == rows[j + 1];
    if FirstHolding(reader, rows, symbol, i + 1, b) {
      forall j | 0 <= j < i ensures OtherBalance(reader, rows[1..][j], symbol) {
        assert OtherBalance(reader, rows[j + 1], symbol);
      }
    }
  }

  lemma {:induction false} SearchExactly(reader: Reader, rows: seq<KvRow>, symbol: string, b: StoredBalance)
    ensures Search(reader, rows, symbol) == Some(b) <==> exists i: nat :: FirstHolding(reader, rows, symbol, i, b)
  {
    if rows != [] && OtherBalance(reader, rows[0], symbol) {
      SearchExactly(reader, rows[1..], symbol, b);
      HoldingTail(reader, rows, symbol, 0, b);
      if i: nat :| FirstHolding(reader, rows, symbol, i, b) {
        assert i > 0;
        HoldingTail(reader, rows, symbol, i - 1, b);
        assert FirstHolding(reader, rows[1..], symbol, i - 1, b);
      }
      if i: nat :| FirstHolding(reader, rows[1..], symbol, i, b) {
        HoldingTail(reader, rows, symbol, i, b);
        assert FirstHolding(reader, rows, symbol, i + 1, b);
      }
    } else if rows != [] && Search(reader, rows, symbol) == Some(b) {
      assert FirstHolding(reader, rows, symbol, 0, b);
    }
  }

  lemma FoundIsHolding(reader: Reader, chain: Chain, account: Name, row: AssetRow, b: StoredBalance)
    ensures ScanFor(reader, chain, account, row.contract, row.symbol) == Found(b) <==>
            Holding(reader, chain, account, row, b)
    ensures ScanFor(reader, chain, account, row.contract, row.symbol) == NoTable <==>
            reader.listsAccounts(row.contract) && TableId(row.contract, account, "accounts") !in chain.tables
  {
    var id := TableId(row.contract, account, "accounts");
    if id in chain.tables {
      SearchExactly(reader, RowsOf(chain.index, chain.tables[id]), row.symbol, b);
    }
  }

  /** The tokens of one asset. */
  function TokensFor(reader: Reader, chain: Chain, account: Name, which: Listing, row: AssetRow): seq<Token> {
    match which
    case Holdings => HoldFor(reader, chain, account, row)
    case All => AllFor(reader, chain, account, row)
    case Requested =>
      if AccountsOf(row.contract, account) in chain.tables || row.precision <= MAX_DECIMALS
      then AllFor(reader, chain, account, row) else []
  }

  lemma OneAsset(reader: Reader, chain: Chain, account: Name, which: Listing, row: AssetRow)
    ensures var tokens := TokensFor(reader, chain, account, which, row);
            if IsListed(reader, chain, account, which, row)
            then |tokens| == 1 && ListedAs(reader, chain, account, which, row, tokens[0])
            else tokens == []
  {
    hide Search, RowsOf, Holding, AmountToString, Canonical, ParseAmount;
    var scan := ScanFor(reader, chain, account, row.contract, row.symbol);
    forall b ensures scan == Found(b) <==> Holding(reader, chain, account, row, b) {
      FoundIsHolding(reader, chain, account, row, b);
    }
    FoundIsHolding(reader, chain, account, row, Balance(0, 0, ""));
    match scan
    case Found(b) =>
      PrintedExactly(b.amount, b.decimals, AmountToString(b.amount, b.decimals));
      assert Holding(reader, chain, account, row, b) && ShowsHolding(row, b, HeldToken(row.contract, row.symbol, b));
    case NoTable =>
      if reader.symbolOf(row.precision, row.symbol).Some? {
        var d := reader.symbolOf(row.precision, row.symbol).value;
        PrintedExactly(0, d, AmountToString(0, d));
      }
    case NotFound =>
  }

  lemma NoTokens(reader: Reader, chain: Chain, account: Name, which: Listing)
    ensures RightTokens(reader, chain, account, which, [], [])
  {
    assert AreTokens(reader, chain, account, which, [], [], []);
  }

  /** One more asset. */
  lemma TokensSnoc(reader: Reader, chain: Chain, account: Name, which: Listing, rows: seq<AssetRow>, row: AssetRow,
                   tokens: seq<Token>)
    requires RightTokens(reader, chain, account, which, rows, tokens)
    ensures RightTokens(reader, chain, account, which, rows + [row],
                        tokens + TokensFor(reader, chain, account, which, row))
  {
    hide IsListed, ListedAs, TokensFor, Increasing;
    OneAsset(reader, chain, account, which, row);
    var at :| AreTokens(reader, chain, account, which, rows, at, tokens);
    var more := TokensFor(reader, chain, account, which, row);
    var all := at + if more == [] then [] else [|rows|];
    if more == [] { assert all == at; } else { IncreasingSnoc(at, |rows|); }
    assert forall i: nat :: i in all <==> i in at || (i == |rows| && more != []);
    assert forall i: nat :: i < |rows| ==> (rows + [row])[i] == rows[i];
    forall j | 0 <= j < |all|
      ensures all[j] < |rows + [row]|
      ensures ListedAs(reader, chain, account, which, (rows + [row])[all[j]], (tokens + more)[j])
    {
      if j < |at| { assert at[j] < |rows| && ListedAs(reader, chain, account, which, rows[at[j]], tokens[j]); }
    }
    assert AreTokens(reader, chain, account, which, rows + [row], all, tokens + more);
  }

  /** The limit, place by place. */
  lemma LimitMeaning<T>(xs: seq<T>, start: nat, count: nat)
    ensures |Limit(xs, start, count)| ==
            if start >= |xs| then 0 else if count < |xs| - start then count else |xs| - start
    ensures forall j :: 0 <= j < |Limit(xs, start, count)| ==> Limit(xs, start, count)[j] == xs[start + j]
  {
  }

  lemma {:induction false} HoldTokensRight(reader: Reader, chain: Chain, account: Name, rows: seq<AssetRow>)
    ensures RightTokens(reader, chain, account, Holdings, rows, HoldTokens(reader, chain, account, rows))
  {
    hide RightTokens, HoldFor;
    if rows == [] {
      NoTokens(reader, chain, account, Holdings);
    } else {
      var pre, last := rows[..|rows| - 1], rows[|rows| - 1];
      HoldTokensRight(reader, chain, account, pre);
      TokensSnoc(reader, chain, account, Holdings, pre, last, HoldTokens(reader, chain, account, pre));
      assert pre + [last] == rows;
    }
  }

  lemma {:induction false} AllTokensRight(reader: Reader, chain: Chain, account: Name, rows: seq<AssetRow>)
    ensures RightTokens(reader, chain, account, All, rows, AllTokens(reader, chain, account, rows))
  {
    hide RightTokens, AllFor;
    if rows == [] {
      NoTokens(reader, chain, account, All);
    } else {
      var pre, last := rows[..|rows| - 1], rows[|rows| - 1];
      AllTokensRight(reader, chain, account, pre);
      TokensSnoc(reader, chain, account, All, pre, last, AllTokens(reader, chain, account, pre));
      assert pre + [last] == rows;
    }
  }

  lemma AllSnoc(reader: Reader, chain: Chain, account: Name, rows: seq<AssetRow>, row: AssetRow)
    ensures AllTokens(reader, chain, account, rows + [row])
            == AllTokens(reader, chain, account, rows) + AllFor(reader, chain, account, row)
  {
    assert (rows + [row])[..|rows|] == rows;
  }

  /** The requested assets that get an answer even when the account has no table: `get_tokens` gives no
      placeholder for a precision above 18. */
  function Servable(chain: Chain, account: Name, rows: seq<AssetRow>): seq<AssetRow> {
    if rows == [] then []
    else
      var row := rows[|rows| - 1];
      Servable(chain, account, rows[..|rows| - 1])
      + if AccountsOf(row.contract, account) in chain.tables || row.precision <= MAX_DECIMALS then [row] else []
  }

  lemma {:induction false} RequestedRight(reader: Reader, chain: Chain, account: Name, rows: seq<AssetRow>)
    ensures RightTokens(reader, chain, account, Requested, rows,
                        AllTokens(reader, chain, account, Servable(chain, account, rows)))
  {
    hide RightTokens, AllFor, AllTokens, TokensFor;
    if rows == [] {
      NoTokens(reader, chain, account, Requested);
      NoAssets(reader, chain, account, []);
      var none: seq<AssetRow> := [];
      assert none[..0] == none;
    } else {
      var pre, last := rows[..|rows| - 1], rows[|rows| - 1];
      var before := Servable(chain, account, pre);
      RequestedRight(reader, chain, account, pre);
      RequestedSnoc(reader, chain, account, pre, last);
      TokensSnoc(reader, chain, account, Requested, pre, last, AllTokens(reader, chain, account, before));
      assert pre + [last] == rows;
    }
  }

  lemma NoAssets(reader: Reader, chain: Chain, account: Name, rows: seq<AssetRow>)
    ensures AllTokens(reader, chain, account, rows[..0]) == []
  {
  }

  // ---------------------------------------------------------------------------------------------
  // The loops
  // ---------------------------------------------------------------------------------------------

  function Callback(reader: Reader, symbol: string): KvRow -> Visit {
    (row: KvRow) =>
      match reader.decode(row.value)
      case None => Throw
      case Some(b) => if b.symbol == symbol then Stop else Continue
  }

  /** Only the last row a scan visits can be the balance it looks for. */
  lemma {:induction false} ScanVisits(reader: Reader, rows: seq<KvRow>, symbol: string)
    ensures var visited := Visited(rows, Callback(reader, symbol));
            && (forall i :: 0 <= i < |visited| - 1 ==>
                  reader.decode(visited[i].value).Some? && reader.decode(visited[i].value).value.symbol != symbol)
            && Search(reader, rows, symbol)
               == if visited == [] || reader.decode(visited[|visited| - 1].value).None? then None
                  else if reader.decode(visited[|visited| - 1].value).value.symbol == symbol
                       then reader.decode(visited[|visited| - 1].value) else None
  {
    if rows != [] {
      ScanVisits(reader, rows[1..], symbol);
    }
  }

  /** One asset: the walk with the callback that appends a token and stops. */
  method ScanTokens(reader: Reader, chain: Chain, account: Name, contract: Name, symbol: string)
      returns (found: bool, tokens: seq<Token>)
    requires Sorted(chain.index) && reader.listsAccounts(contract)
    ensures found == !ScanFor(reader, chain, account, contract, symbol).NoTable?
    ensures tokens == match ScanFor(reader, chain, account, contract, symbol)
                      case Found(b) => [HeldToken(contract, symbol, b)]
                      case _ => []
    ensures found <==> TableId(contract, account, "accounts") in chain.tables
    ensures var row := AssetRow(contract, 0, symbol);
            if IsListed(reader, chain, account, Holdings, row)
            then |tokens| == 1 && ListedAs(reader, chain, account, Holdings, row, tokens[0])
            else tokens == []
  {
    hide Search, RowsOf, Visited, IsListed, ListedAs, AmountToString;
    OneAsset(reader, chain, account, Holdings, AssetRow(contract, 0, symbol));
    var visited;
    var id := AccountsOf(contract, account);
    found, visited := WalkKeyValueTable(chain, id, Callback(reader, symbol));
    if found {
      ScanVisits(reader, RowsOf(chain.index, chain.tables[id]), symbol);
    }
    tokens := [];
    for i := 0 to |visited|
      invariant i < |visited| ==> tokens == []
      invariant i == |visited| ==> found ==>
        tokens == match ScanFor(reader, chain, account, contract, symbol)
                  case Found(b) => [HeldToken(contract, symbol, b)]
                  case _ => []
      invariant !found ==> tokens == []
    {
      var balance := reader.decode(visited[i].value);
      if balance.Some? && balance.value.symbol == symbol {
        tokens := tokens + [HeldToken(contract, symbol, balance.value)];
      }
    }
  }

  method GetAllTokens(reader: Reader, chain: Chain, account: Name, assets: seq<AssetRow>, startNum: int, pageSize: int)
      returns (tokens: seq<Token>)
    requires Sorted(chain.index)
    ensures tokens == if startNum < 0 || pageSize < 0 then []
                      else AllTokens(reader, chain, account, Limit(assets, startNum, pageSize))
    ensures startNum >= 0 && pageSize >= 0 ==>
              RightTokens(reader, chain, account, All, Limit(assets, startNum, pageSize), tokens)
  {
    hide RightTokens;
    hide Search, RowsOf, AllTokens;
    tokens := [];
    if startNum < 0 || pageSize < 0 {
      return;
    }
    var rows := Limit(assets, startNum, pageSize);
    AllTokensRight(reader, chain, account, rows);
    NoAssets(reader, chain, account, rows);
    for i := 0 to |rows|
      invariant tokens == AllTokens(reader, chain, account, rows[..i])
    {
      assert rows[..i + 1] == rows[..i] + [rows[i]];
      AllSnoc(reader, chain, account, rows[..i], rows[i]);
      assert tokens + [] == tokens;
      if reader.listsAccounts(rows[i].contract) {
        var found, more := ScanTokens(reader, chain, account, rows[i].contract, rows[i].symbol);
        if !found {
          more := Placeholder(reader, rows[i]);
        }
        tokens := tokens + more;
      }
    }
    assert rows[..|rows|] == rows;
  }

  method GetHoldTokens(reader: Reader, chain: Chain, account: Name, assets: seq<AssetRow>) returns (tokens: seq<Token>)
    requires Sorted(chain.index)
    ensures tokens == HoldTokens(reader, chain, account, assets)
    ensures RightTokens(reader, chain, account, Holdings, assets, tokens)
  {
    hide RightTokens;
    HoldTokensRight(reader, chain, account, assets);
    hide Search, RowsOf;
    tokens := [];
    for i := 0 to |assets|
      invariant tokens == HoldTokens(reader, chain, account, assets[..i])
    {
      assert assets[..i + 1][..i] == assets[..i];
      if reader.listsAccounts(assets[i].contract) {
        var _, more := ScanTokens(reader, chain, account, assets[i].contract, assets[i].symbol);
        tokens := tokens + more;
      }
    }
    assert assets[..|assets|] == assets;
  }

  /** One more requested asset. */
  lemma RequestedSnoc(reader: Reader, chain: Chain, account: Name, rows: seq<AssetRow>, row: AssetRow)
    ensures AllTokens(reader, chain, account, Servable(chain, account, rows + [row]))
            == AllTokens(reader, chain, account, Servable(chain, account, rows))
               + TokensFor(reader, chain, account, Requested, row)
  {
    hide AllFor, AllTokens;
    assert (rows + [row])[..|rows|] == rows;
    var before := Servable(chain, account, rows);
    AllSnoc(reader, chain, account, before, row);
    assert before + [] == before;
    assert AllTokens(reader, chain, account, before) + [] == AllTokens(reader, chain, account, before);
  }

  /** `get_tokens` takes the assets from the request. */
  method GetTokens(reader: Reader, chain: Chain, account: Name, wanted: seq<AssetRow>) returns (tokens: seq<Token>)
    requires Sorted(chain.index)
    ensures tokens == AllTokens(reader, chain, account, Servable(chain, account, wanted))
    ensures RightTokens(reader, chain, account, Requested, wanted, tokens)
  {
    hide RightTokens, Search, RowsOf, Servable, AllTokens;
    RequestedRight(reader, chain, account, wanted);
    tokens := [];
    NothingRequested(reader, chain, account, wanted);
    for i := 0 to |wanted|
      invariant tokens == AllTokens(reader, chain, account, Servable(chain, account, wanted[..i]))
    {
      assert wanted[..i + 1] == wanted[..i] + [wanted[i]];
      RequestedSnoc(reader, chain, account, wanted[..i], wanted[i]);
      assert tokens + [] == tokens;
      if reader.listsAccounts(wanted[i].contract) {
        var found, more := ScanTokens(reader, chain, account, wanted[i].contract, wanted[i].symbol);
        if !found && wanted[i].precision <= MAX_DECIMALS {
          more := Placeholder(reader, wanted[i]);
        }
        tokens := tokens + more;
      }
    }
    assert wanted[..|wanted|] == wanted;
  }

  lemma NothingRequested(reader: Reader, chain: Chain, account: Name, wanted: seq<AssetRow>)
    ensures AllTokens(reader, chain, account, Servable(chain, account, wanted[..0])) == []
  {
  }

  // ---------------------------------------------------------------------------------------------
  // Properties of the listings
  // ---------------------------------------------------------------------------------------------

  lemma {:induction false} AllConcat(reader: Reader, chain: Chain, account: Name, xs: seq<AssetRow>, ys: seq<AssetRow>)
    ensures AllTokens(reader, chain, account, xs + ys)
            == AllTokens(reader, chain, account, xs) + AllTokens(reader, chain, account, ys)
  {
    hide AllFor;
    if ys == [] {
      assert xs + ys == xs;
    } else {
      var pre, last := ys[..|ys| - 1], ys[|ys| - 1];
      AllConcat(reader, chain, account, xs, pre);
      assert xs + ys == (xs + pre) + [last] && ys == pre + [last];
      AllSnoc(reader, chain, account, xs + pre, last);
      AllSnoc(reader, chain, account, pre, last);
      Associates(AllTokens(reader, chain, account, xs), AllTokens(reader, chain, account, pre),
                 AllFor(reader, chain, account, last));
    }
  }

  lemma LimitConcat<T>(xs: seq<T>, start: nat, m: nat, n: nat)
    ensures Limit(xs, start, m) + Limit(xs, start + m, n) == Limit(xs, start, m + n)
  {
  }

  /** Adjacent pages concatenate to the larger page, and one large enough page is the full listing. */
  lemma PagesConcatenate(reader: Reader, chain: Chain, account: Name, assets: seq<AssetRow>, start: nat, m: nat, n: nat)
    ensures AllTokens(reader, chain, account, Limit(assets, start, m))
            + AllTokens(reader, chain, account, Limit(assets, start + m, n))
            == AllTokens(reader, chain, account, Limit(assets, start, m + n))
    ensures m >= |assets| ==> Limit(assets, 0, m) == assets
  {
    LimitConcat(assets, start, m, n);
    AllConcat(reader, chain, account, Limit(assets, start, m), Limit(assets, start + m, n));
  }

  /** The assets whose contract keeps a table for the account. */
  function WithTable(chain: Chain, account: Name, rows: seq<AssetRow>): seq<AssetRow> {
    if rows == [] then []
    else
      var row := rows[|rows| - 1];
      WithTable(chain, account, rows[..|rows| - 1])
      + if TableId(row.contract, account, "accounts") in chain.tables then [row] else []
  }

  lemma HoldOrPlaceholder(reader: Reader, chain: Chain, account: Name, row: AssetRow)
    ensures HoldFor(reader, chain, account, row) ==
            if TableId(row.contract, account, "accounts") in chain.tables
            then AllFor(reader, chain, account, row) else []
    ensures |HoldFor(reader, chain, account, row)| <= |AllFor(reader, chain, account, row)| <= 1
  {
  }

  lemma HoldSnoc(reader: Reader, chain: Chain, account: Name, kept: seq<AssetRow>, row: AssetRow)
    ensures var served := TableId(row.contract, account, "accounts") in chain.tables;
            AllTokens(reader, chain, account, kept + if served then [row] else [])
            == AllTokens(reader, chain, account, kept) + HoldFor(reader, chain, account, row)
  {
    HoldOrPlaceholder(reader, chain, account, row);
    AllSnoc(reader, chain, account, kept, row);
    assert kept + [] == kept;
    assert AllTokens(reader, chain, account, kept) + [] == AllTokens(reader, chain, account, kept);
  }

  /** The holdings are the full listing without the placeholders: they list the same assets in the same
      order, except those whose contract has no table for the account; and each asset gives one token at
      most. */
  lemma {:induction false} HoldingsAreListingWithoutPlaceholders(reader: Reader, chain: Chain, account: Name,
                                                                 rows: seq<AssetRow>)
    ensures HoldTokens(reader, chain, account, rows)
            == AllTokens(reader, chain, account, WithTable(chain, account, rows))
    ensures |HoldTokens(reader, chain, account, rows)| <= |AllTokens(reader, chain, account, rows)| <= |rows|
  {
    if rows != [] {
      var n := |rows| - 1;
      HoldingsAreListingWithoutPlaceholders(reader, chain, account, rows[..n]);
      HoldSnoc(reader, chain, account, WithTable(chain, account, rows[..n]), rows[n]);
      HoldOrPlaceholder(reader, chain, account, rows[n]);
    }
  }
}
