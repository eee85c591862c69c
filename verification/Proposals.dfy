/**
 The three proposal queries: `get_pending_proposals`, `get_pending_proposal` and `get_my_proposals`, over the
 proposals table and the multisig contract's `approvals` and `proposal` tables.
 */
module Proposals {
  import opened Common
  import opened Traces
  import opened Tables
  import opened ChainIndex
  import Approvals
  import Statements

  datatype Approval = Approval(name: Name, requested: string, provided: string)
  datatype PackedTrx = PackedTrx(name: Name, blob: string)

  /** Code outside the repository; None is a thrown exception. */
  datatype Reader = Reader(
    approval: seq<Byte> -> Option<Approval>,          // a row of `approvals`, its levels printed as JSON
    packed: seq<Byte> -> Option<PackedTrx>,           // a row of `proposal`
    render: string -> Option<string>,                 // hex, transaction, readable JSON
    authorize: (string, string) -> Option<bool>       // false for an authorization exception
  )

  datatype Proposal = Proposal(
    proposer: Name, name: Name, transaction: string, requested: string, provided: string, status: nat)

  /** A query either answers or lets an exception out. */
  datatype Reply = Ok(proposals: seq<Proposal>) | Failed

  /** The proposals found so far, followed by the reply for the rest. */
  function Join(xs: seq<Proposal>, r: Reply): Reply {
    match r
    case Failed => Failed
    case Ok(ys) => Ok(xs + ys)
  }

  lemma JoinNothing(r: Reply)
    ensures Join([], r) == r
  {
    if r.Ok? {
      assert [] + r.proposals == r.proposals;
    }
  }

  function TableRows(chain: Chain, scope: Name, table: Name): seq<KvRow> {
    var id := TableId(MSIG, scope, table);
    if id in chain.tables then RowsOf(chain.index, chain.tables[id]) else []
  }

  /** The proposal of one approvals row: the first row of the `proposal` table under its name. */
  function Emit(reader: Reader, trxs: seq<KvRow>, proposer: Name, a: Approval): Reply {
    if trxs == [] then Ok([])
    else
      match reader.packed(trxs[0].value)
      case None => Failed
      case Some(t) =>
        if t.name != a.name then Emit(reader, trxs[1..], proposer, a)
        else
          var text, allowed := reader.render(t.blob), reader.authorize(t.blob, a.provided);
          if text.None? || allowed.None? then Failed
          else Ok([Proposal(proposer, a.name, text.value, a.requested, a.provided, if allowed.value then 1 else 0)])
  }

  /** `get_my_proposals`: one entry for every approvals row. */
  function MyProposals(reader: Reader, rows: seq<KvRow>, trxs: seq<KvRow>, proposer: Name): Reply {
    if rows == [] then Ok([])
    else
      match reader.approval(rows[0].value)
      case None => Failed
      case Some(a) =>
        match Emit(reader, trxs, proposer, a) {
          case Failed => Failed
          case Ok(xs) => Join(xs, MyProposals(reader, rows[1..], trxs, proposer))
        }
  }

  /** `get_pending_proposal`: one entry for every approvals row of that name. */
  function ProposalsNamed(reader: Reader, rows: seq<KvRow>, trxs: seq<KvRow>, proposer: Name, name: Name): Reply {
    if rows == [] then Ok([])
    else
      match reader.approval(rows[0].value)
      case None => Failed
      case Some(a) =>
        if a.name != name then ProposalsNamed(reader, rows[1..], trxs, proposer, name)
        else
          match Emit(reader, trxs, proposer, a) {
            case Failed => Failed
            case Ok(xs) => Join(xs, ProposalsNamed(reader, rows[1..], trxs, proposer, name))
          }
  }

  /** The part of `get_pending_proposals` for one SQL row: it stops at the first approvals row of the name. */
  function FirstNamed(reader: Reader, rows: seq<KvRow>, trxs: seq<KvRow>, proposer: Name, name: Name): Reply {
    if rows == [] then Ok([])
    else
      match reader.approval(rows[0].value)
      case None => Failed
      case Some(a) =>
        if a.name != name then FirstNamed(reader, rows[1..], trxs, proposer, name)
        else Emit(reader, trxs, proposer, a)
  }

  function MyReply(reader: Reader, chain: Chain, proposer: Name): Reply {
    MyProposals(reader, TableRows(chain, proposer, "approvals"), TableRows(chain, proposer, "proposal"), proposer)
  }

  function NamedReply(reader: Reader, chain: Chain, k: Statements.ProposalKey): Reply {
    var rows, trxs := TableRows(chain, k.proposer, "approvals"), TableRows(chain, k.proposer, "proposal");
    ProposalsNamed(reader, rows, trxs, k.proposer, k.name)
  }

  function FirstReply(reader: Reader, chain: Chain, k: Statements.ProposalKey): Reply {
    var rows, trxs := TableRows(chain, k.proposer, "approvals"), TableRows(chain, k.proposer, "proposal");
    FirstNamed(reader, rows, trxs, k.proposer, k.name)
  }

  function PendingReply(reader: Reader, chain: Chain, keys: seq<Statements.ProposalKey>): Reply {
    if keys == [] then Ok([])
    else
      match FirstReply(reader, chain, keys[0])
      case Failed => Failed
      case Ok(xs) => Join(xs, PendingReply(reader, chain, keys[1..]))
  }

  /** The condition of the SQL search. */
  predicate Listed(text: string, account: Name) {
    Approvals.Like("%" + (Approvals.ActorText(account) + "%"), text)
  }

  /** `get_proposal`: the keys of the rows whose approvals text matches, in id order. */
  function Awaiting(rows: seq<Row<Statements.ProposalKey, string>>, account: Name): seq<Statements.ProposalKey> {
    if rows == [] then []
    else
      (if Listed(rows[0].value, account) then [rows[0].key] else []) + Awaiting(rows[1..], account)
  }

  // ---------------------------------------------------------------------------------------------
  // What a reply holds
  // ---------------------------------------------------------------------------------------------

  /** The rows of a table of a contract. */
  function ContractRows(chain: Chain, code: Name, scope: Name, table: Name): seq<KvRow> {
    if TableId(code, scope, table) in chain.tables then RowsOf(chain.index, chain.tables[TableId(code, scope, table)])
    else []
  }

  /** Row `m` of the proposal table is the first under that name, and every row before it can be read. */
  ghost predicate FirstUnder(reader: Reader, trxs: seq<KvRow>, name: Name, m: nat) {
    && m < |trxs| && (forall j :: 0 <= j < m ==> OtherTrx(reader, trxs[j], name))
    && reader.packed(trxs[m].value).Some? && reader.packed(trxs[m].value).value.name == name
  }

  predicate OtherTrx(reader: Reader, row: KvRow, name: Name) {
    reader.packed(row.value).Some? && reader.packed(row.value).value.name != name
  }

  ghost predicate HasTransaction(reader: Reader, trxs: seq<KvRow>, name: Name) {
    exists m: nat :: FirstUnder(reader, trxs, name, m)
  }

  /** The walk for this approvals row meets something that throws. */
  ghost predicate Breaks(reader: Reader, trxs: seq<KvRow>, a: Approval) {
    exists m: nat :: BreaksAt(reader, trxs, a, m)
  }

  ghost predicate BreaksAt(reader: Reader, trxs: seq<KvRow>, a: Approval, m: nat) {
    && m < |trxs| && (forall j :: 0 <= j < m ==> OtherTrx(reader, trxs[j], a.name))
    && (reader.packed(trxs[m].value).None?
        || (reader.packed(trxs[m].value).value.name == a.name
            && (reader.render(reader.packed(trxs[m].value).value.blob).None?
                || reader.authorize(reader.packed(trxs[m].value).value.blob, a.provided).None?)))
  }

  /** `p` is the proposal of approvals row `a` with the transaction of row `m`. */
  predicate ShowsTrx(reader: Reader, trxs: seq<KvRow>, proposer: Name, a: Approval, m: nat, p: Proposal) {
    && m < |trxs| && reader.packed(trxs[m].value).Some?
    && p.proposer == proposer && p.name == a.name && p.requested == a.requested && p.provided == a.provided
    && var blob := reader.packed(trxs[m].value).value.blob;
       && reader.render(blob) == Some(p.transaction) && reader.authorize(blob, a.provided).Some?
       && p.status == if reader.authorize(blob, a.provided) == Some(true) then 1 else 0
  }

  ghost predicate Shows(reader: Reader, trxs: seq<KvRow>, proposer: Name, a: Approval, p: Proposal) {
    exists m: nat :: FirstUnder(reader, trxs, a.name, m) && ShowsTrx(reader, trxs, proposer, a, m, p)
  }

  lemma FirstUnderTail(reader: Reader, trxs: seq<KvRow>, name: Name, m: nat)
    requires trxs != [] && OtherTrx(reader, trxs[0], name)
    ensures FirstUnder(reader, trxs, name, m + 1) <==> FirstUnder(reader, trxs[1..], name, m)
    ensures !FirstUnder(reader, trxs, name, 0)
  {
    assert forall j :: 0 <= j < |trxs[1..]| ==> trxs[1..][j] == trxs[j + 1];
    if FirstUnder(reader, trxs, name, m + 1) {
      forall j | 0 <= j < m ensures OtherTrx(reader, trxs[1..][j], name) { assert OtherTrx(reader, trxs[j + 1], name); }
    }
  }

  lemma BreaksTail(reader: Reader, trxs: seq<KvRow>, a: Approval, m: nat)
    requires trxs != [] && OtherTrx(reader, trxs[0], a.name)
    ensures BreaksAt(reader, trxs, a, m + 1) <==> BreaksAt(reader, trxs[1..], a, m)
    ensures !BreaksAt(reader, trxs, a, 0)
  {
    assert forall j :: 0 <= j < |trxs[1..]| ==> trxs[1..][j] == trxs[j + 1];
    if BreaksAt(reader, trxs, a, m + 1) {
      forall j | 0 <= j < m ensures OtherTrx(reader, trxs[1..][j], a.name) {
        assert OtherTrx(reader, trxs[j + 1], a.name);
      }
    }
  }

  /** The inner walk of one approvals row. */
  ghost predicate EmitRight(reader: Reader, trxs: seq<KvRow>, proposer: Name, a: Approval, r: Reply) {
    && (r.Failed? <==> Breaks(reader, trxs, a))
    && (r.Ok? ==> if HasTransaction(reader, trxs, a.name)
                  then |r.proposals| == 1 && Shows(reader, trxs, proposer, a, r.proposals[0])
                  else r.proposals == [])
  }

  lemma EmitNothing(reader: Reader, proposer: Name, a: Approval)
    ensures EmitRight(reader, [], proposer, a, Ok([]))
  {
  }

  lemma EmitHead(reader: Reader, trxs: seq<KvRow>, proposer: Name, a: Approval)
    requires trxs != [] && !OtherTrx(reader, trxs[0], a.name)
    ensures EmitRight(reader, trxs, proposer, a, Emit(reader, trxs, proposer, a))
  {
    forall m: nat | m > 0 ensures !FirstUnder(reader, trxs, a.name, m) && !BreaksAt(reader, trxs, a, m) {}
    var r := Emit(reader, trxs, proposer, a);
    assert BreaksAt(reader, trxs, a, 0) <==> r.Failed?;
    if r.Ok? {
      assert FirstUnder(reader, trxs, a.name, 0) && ShowsTrx(reader, trxs, proposer, a, 0, r.proposals[0]);
    }
  }

  lemma EmitLater(reader: Reader, trxs: seq<KvRow>, proposer: Name, a: Approval, r: Reply)
    requires trxs != [] && OtherTrx(reader, trxs[0], a.name) && EmitRight(reader, trxs[1..], proposer, a, r)
    ensures EmitRight(reader, trxs, proposer, a, r)
  {
    hide FirstUnder, BreaksAt, OtherTrx;
    var rest := trxs[1..];
    forall m: nat
      ensures FirstUnder(reader, trxs, a.name, m + 1) <==> FirstUnder(reader, rest, a.name, m)
      ensures BreaksAt(reader, trxs, a, m + 1) <==> BreaksAt(reader, rest, a, m)
    {
      FirstUnderTail(reader, trxs, a.name, m);
      BreaksTail(reader, trxs, a, m);
    }
    FirstUnderTail(reader, trxs, a.name, 0);
    BreaksTail(reader, trxs, a, 0);
    if m: nat :| FirstUnder(reader, trxs, a.name, m) {
      assert m > 0;
      assert FirstUnder(reader, rest, a.name, m - 1);
    }
    if m: nat :| BreaksAt(reader, trxs, a, m) {
      assert m > 0;
      assert BreaksAt(reader, rest, a, m - 1);
    }
    if m: nat :| BreaksAt(reader, rest, a, m) { assert BreaksAt(reader, trxs, a, m + 1); }
    if m: nat :| FirstUnder(reader, rest, a.name, m) { assert FirstUnder(reader, trxs, a.name, m + 1); }
    if r.Ok? && HasTransaction(reader, rest, a.name) {
      var m: nat :| FirstUnder(reader, rest, a.name, m) && ShowsTrx(reader, rest, proposer, a, m, r.proposals[0]);
      assert FirstUnder(reader, trxs, a.name, m + 1) && ShowsTrx(reader, trxs, proposer, a, m + 1, r.proposals[0]);
    }
  }

  lemma {:induction false} EmitMeaning(reader: Reader, trxs: seq<KvRow>, proposer: Name, a: Approval)
    ensures EmitRight(reader, trxs, proposer, a, Emit(reader, trxs, proposer, a))
  {
    hide EmitRight;
    if trxs == [] {
      EmitNothing(reader, proposer, a);
    } else if OtherTrx(reader, trxs[0], a.name) {
      EmitMeaning(reader, trxs[1..], proposer, a);
      EmitLater(reader, trxs, proposer, a, Emit(reader, trxs[1..], proposer, a));
    } else {
      EmitHead(reader, trxs, proposer, a);
    }
  }

  /** The approvals row can be read and is asked for: any row, or those of one name. */
  predicate Asked(reader: Reader, row: KvRow, which: Option<Name>) {
    && reader.approval(row.value).Some?
    && (which.None? || reader.approval(row.value).value.name == which.value)
  }

  /** Approvals row `i` gives a proposal. */
  ghost predicate Gives(reader: Reader, rows: seq<KvRow>, trxs: seq<KvRow>, which: Option<Name>, i: nat) {
    && i < |rows| && Asked(reader, rows[i], which)
    && HasTransaction(reader, trxs, reader.approval(rows[i].value).value.name)
  }

  /** Approvals row `i` throws. */
  ghost predicate Throws(reader: Reader, rows: seq<KvRow>, trxs: seq<KvRow>, which: Option<Name>, i: nat) {
    && i < |rows|
    && (reader.approval(rows[i].value).None?
        || (Asked(reader, rows[i], which) && Breaks(reader, trxs, reader.approval(rows[i].value).value)))
  }

  /** `ps` are the proposals of the approvals rows at `at`, in key order. */
  ghost predicate AreShown(reader: Reader, rows: seq<KvRow>, trxs: seq<KvRow>, proposer: Name, which: Option<Name>,
                           at: seq<nat>, ps: seq<Proposal>)
  {
    && |at| == |ps| && Increasing(at)
    && (forall i :: i in at <==> Gives(reader, rows, trxs, which, i))
    && (forall j :: 0 <= j < |at| ==> ShownAt(reader, rows, trxs, proposer, at[j], ps[j]))
  }

  ghost predicate ShownAt(reader: Reader, rows: seq<KvRow>, trxs: seq<KvRow>, proposer: Name, i: nat, p: Proposal) {
    && i < |rows| && reader.approval(rows[i].value).Some?
    && Shows(reader, trxs, proposer, reader.approval(rows[i].value).value, p)
  }

  /** A right answer to `get_my_proposals`, or with a name to `get_pending_proposal`. */
  ghost predicate RightReply(reader: Reader, rows: seq<KvRow>, trxs: seq<KvRow>, proposer: Name, which: Option<Name>,
                             r: Reply)
  {
    && (r.Failed? <==> exists i: nat :: Throws(reader, rows, trxs, which, i))
    && (r.Ok? ==> exists at :: AreShown(reader, rows, trxs, proposer, which, at, r.proposals))
  }

  function ReplyFor(reader: Reader, rows: seq<KvRow>, trxs: seq<KvRow>, proposer: Name, which: Option<Name>): Reply {
    match which
    case None => MyProposals(reader, rows, trxs, proposer)
    case Some(name) => ProposalsNamed(reader, rows, trxs, proposer, name)
  }

  lemma TailGives(reader: Reader, rows: seq<KvRow>, trxs: seq<KvRow>, which: Option<Name>, i: nat)
    requires rows != []
    ensures Gives(reader, rows, trxs, which, i + 1) <==> Gives(reader, rows[1..], trxs, which, i)
    ensures Throws(reader, rows, trxs, which, i + 1) <==> Throws(reader, rows[1..], trxs, which, i)
  {
  }

  /** The proposals of the later rows behind that of the first row, if it gives one. */
  lemma ShownCons(reader: Reader, rows: seq<KvRow>, trxs: seq<KvRow>, proposer: Name, which: Option<Name>,
                  at: seq<nat>, head: seq<Proposal>, ps: seq<Proposal>)
    requires rows != [] && AreShown(reader, rows[1..], trxs, proposer, which, at, ps)
    requires |head| == (if Gives(reader, rows, trxs, which, 0) then 1 else 0)
    requires |head| == 1 ==> ShownAt(reader, rows, trxs, proposer, 0, head[0])
    ensures AreShown(reader, rows, trxs, proposer, which, Places(head != [], at), head + ps)
  {
    hide Gives, Shows;
    var all := Places(head != [], at);
    PlacesIncrease(head != [], at);
    forall i: nat ensures i in all <==> Gives(reader, rows, trxs, which, i) {
      PlacesMember(head != [], at, i);
      if i > 0 {
        TailGives(reader, rows, trxs, which, i - 1);
      }
    }
    forall j | 0 <= j < |all| ensures ShownAt(reader, rows, trxs, proposer, all[j], (head + ps)[j]) {
      if j >= |head| {
        assert ShownAt(reader, rows[1..], trxs, proposer, at[j - |head|], ps[j - |head|]);
      }
    }
  }

  lemma NothingShown(reader: Reader, trxs: seq<KvRow>, proposer: Name, which: Option<Name>)
    ensures RightReply(reader, [], trxs, proposer, which, Ok([]))
  {
    assert AreShown(reader, [], trxs, proposer, which, [], []);
  }

  lemma FirstRowThrows(reader: Reader, rows: seq<KvRow>, trxs: seq<KvRow>, proposer: Name, which: Option<Name>)
    requires Throws(reader, rows, trxs, which, 0)
    ensures RightReply(reader, rows, trxs, proposer, which, Failed)
  {
  }

  lemma LaterRows(reader: Reader, rows: seq<KvRow>, trxs: seq<KvRow>, proposer: Name, which: Option<Name>,
                  head: seq<Proposal>, r: Reply)
    requires rows != [] && RightReply(reader, rows[1..], trxs, proposer, which, r)
    requires !Throws(reader, rows, trxs, which, 0)
    requires |head| == (if Gives(reader, rows, trxs, which, 0) then 1 else 0)
    requires |head| == 1 ==> ShownAt(reader, rows, trxs, proposer, 0, head[0])
    ensures RightReply(reader, rows, trxs, proposer, which, Join(head, r))
  {
    hide Gives, Throws, ShownAt, AreShown;
    forall i: nat ensures Throws(reader, rows, trxs, which, i + 1) <==> Throws(reader, rows[1..], trxs, which, i) {
      TailGives(reader, rows, trxs, which, i);
    }
    if i: nat :| Throws(reader, rows, trxs, which, i) { assert Throws(reader, rows[1..], trxs, which, i - 1); }
    if i: nat :| Throws(reader, rows[1..], trxs, which, i) { assert Throws(reader, rows, trxs, which, i + 1); }
    if r.Ok? {
      var at :| AreShown(reader, rows[1..], trxs, proposer, which, at, r.proposals);
      ShownCons(reader, rows, trxs, proposer, which, at, head, r.proposals);
    }
  }

  /** The specification functions give right answers. */
  lemma {:induction false} ReplyMeaning(reader: Reader, rows: seq<KvRow>, trxs: seq<KvRow>, proposer: Name,
                                        which: Option<Name>)
    ensures RightReply(reader, rows, trxs, proposer, which, ReplyFor(reader, rows, trxs, proposer, which))
  {
    if rows == [] {
      NothingShown(reader, trxs, proposer, which);
    } else if reader.approval(rows[0].value).None? {
      FirstRowThrows(reader, rows, trxs, proposer, which);
    } else {
      hide RightReply, Breaks, HasTransaction, Shows, Emit;
      var a := reader.approval(rows[0].value).value;
      ReplyMeaning(reader, rows[1..], trxs, proposer, which);
      var r := ReplyFor(reader, rows[1..], trxs, proposer, which);
      if Asked(reader, rows[0], which) {
        EmitMeaning(reader, trxs, proposer, a);
        if Emit(reader, trxs, proposer, a).Failed? {
          FirstRowThrows(reader, rows, trxs, proposer, which);
        } else {
          LaterRows(reader, rows, trxs, proposer, which, Emit(reader, trxs, proposer, a).proposals, r);
        }
      } else {
        LaterRows(reader, rows, trxs, proposer, which, [], r);
        JoinNothing(r);
      }
    }
  }

  lemma MyReplyIsRight(reader: Reader, chain: Chain, proposer: Name)
    ensures RightReply(reader, ContractRows(chain, "eosio.msig", proposer, "approvals"),
                       ContractRows(chain, "eosio.msig", proposer, "proposal"), proposer, None,
                       MyReply(reader, chain, proposer))
  {
    hide RightReply, MyProposals;
    var rows, trxs := TableRows(chain, proposer, "approvals"), TableRows(chain, proposer, "proposal");
    ReplyMeaning(reader, rows, trxs, proposer, None);
  }

  lemma NamedReplyIsRight(reader: Reader, chain: Chain, proposer: Name, name: Name)
    ensures RightReply(reader, ContractRows(chain, "eosio.msig", proposer, "approvals"),
                       ContractRows(chain, "eosio.msig", proposer, "proposal"), proposer, Some(name),
                       NamedReply(reader, chain, Statements.ProposalKey(proposer, name)))
  {
    hide RightReply, ProposalsNamed;
    var rows, trxs := TableRows(chain, proposer, "approvals"), TableRows(chain, proposer, "proposal");
    ReplyMeaning(reader, rows, trxs, proposer, Some(name));
  }

  /** Approvals row `m` is the first of that name, and every row before it can be read. */
  ghost predicate FirstApproval(reader: Reader, rows: seq<KvRow>, name: Name, m: nat) {
    && m < |rows| && (forall j :: 0 <= j < m ==> OtherApproval(reader, rows[j], name))
    && reader.approval(rows[m].value).Some? && reader.approval(rows[m].value).value.name == name
  }

  predicate OtherApproval(reader: Reader, row: KvRow, name: Name) {
    reader.approval(row.value).Some? && reader.approval(row.value).value.name != name
  }

  /** The answer for one SQL row: it stops at the first approvals row of the name. */
  ghost predicate RightFirst(reader: Reader, rows: seq<KvRow>, trxs: seq<KvRow>, proposer: Name, name: Name, r: Reply) {
    && (r.Failed? <==> exists m: nat :: FirstThrows(reader, rows, trxs, name, m))
    && (r.Ok? ==>
          if FirstGives(reader, rows, trxs, name)
          then |r.proposals| == 1
               && exists m: nat :: FirstApproval(reader, rows, name, m)
                                   && ShownAt(reader, rows, trxs, proposer, m, r.proposals[0])
          else r.proposals == [])
  }

  ghost predicate FirstGives(reader: Reader, rows: seq<KvRow>, trxs: seq<KvRow>, name: Name) {
    HasTransaction(reader, trxs, name) && exists m: nat :: FirstApproval(reader, rows, name, m)
  }

  ghost predicate FirstThrows(reader: Reader, rows: seq<KvRow>, trxs: seq<KvRow>, name: Name, m: nat) {
    && m < |rows| && (forall j :: 0 <= j < m ==> OtherApproval(reader, rows[j], name))
    && (reader.approval(rows[m].value).None?
        || (reader.approval(rows[m].value).value.name == name
            && Breaks(reader, trxs, reader.approval(rows[m].value).value)))
  }

  lemma FirstTail(reader: Reader, rows: seq<KvRow>, trxs: seq<KvRow>, name: Name, m: nat)
    requires rows != [] && OtherApproval(reader, rows[0], name)
    ensures FirstApproval(reader, rows, name, m + 1) <==> FirstApproval(reader, rows[1..], name, m)
    ensures FirstThrows(reader, rows, trxs, name, m + 1) <==> FirstThrows(reader, rows[1..], trxs, name, m)
    ensures !FirstApproval(reader, rows, name, 0) && !FirstThrows(reader, rows, trxs, name, 0)
  {
    hide Breaks;
    assert forall j :: 0 <= j < |rows[1..]| ==> rows[1..][j] == rows[j + 1];
    if FirstApproval(reader, rows, name, m + 1) || FirstThrows(reader, rows, trxs, name, m + 1) {
      forall j | 0 <= j < m ensures OtherApproval(reader, rows[1..][j], name) {
        assert OtherApproval(reader, rows[j + 1], name);
      }
    }
  }

  lemma FirstLater(reader: Reader, rows: seq<KvRow>, trxs: seq<KvRow>, proposer: Name, name: Name, r: Reply)
    requires rows != [] && OtherApproval(reader, rows[0], name)
    requires RightFirst(reader, rows[1..], trxs, proposer, name, r)
    ensures RightFirst(reader, rows, trxs, proposer, name, r)
  {
    hide FirstApproval, FirstThrows, OtherApproval, Shows, HasTransaction;
    var rest := rows[1..];
    forall m: nat
      ensures FirstApproval(reader, rows, name, m + 1) <==> FirstApproval(reader, rest, name, m)
      ensures FirstThrows(reader, rows, trxs, name, m + 1) <==> FirstThrows(reader, rest, trxs, name, m)
    {
      FirstTail(reader, rows, trxs, name, m);
    }
    FirstTail(reader, rows, trxs, name, 0);
    if m: nat :| FirstApproval(reader, rows, name, m) {
      assert m > 0;
      assert FirstApproval(reader, rest, name, m - 1);
    }
    if m: nat :| FirstThrows(reader, rows, trxs, name, m) {
      assert m > 0;
      assert FirstThrows(reader, rest, trxs, name, m - 1);
    }
    if m: nat :| FirstThrows(reader, rest, trxs, name, m) { assert FirstThrows(reader, rows, trxs, name, m + 1); }
    if m: nat :| FirstApproval(reader, rest, name, m) { assert FirstApproval(reader, rows, name, m + 1); }
    if r.Ok? && FirstGives(reader, rest, trxs, name) {
      var m: nat :| FirstApproval(reader, rest, name, m) && ShownAt(reader, rest, trxs, proposer, m, r.proposals[0]);
      assert FirstApproval(reader, rows, name, m + 1) && ShownAt(reader, rows, trxs, proposer, m + 1, r.proposals[0]);
    }
  }

  lemma FirstHere(reader: Reader, rows: seq<KvRow>, trxs: seq<KvRow>, proposer: Name, name: Name)
    requires rows != [] && !OtherApproval(reader, rows[0], name)
    ensures RightFirst(reader, rows, trxs, proposer, name, FirstNamed(reader, rows, trxs, proposer, name))
  {
    hide Breaks, HasTransaction, Shows, Emit;
    var r := FirstNamed(reader, rows, trxs, proposer, name);
    forall m: nat | m > 0
      ensures !FirstApproval(reader, rows, name, m) && !FirstThrows(reader, rows, trxs, name, m)
    {
    }
    if reader.approval(rows[0].value).Some? {
      EmitMeaning(reader, trxs, proposer, reader.approval(rows[0].value).value);
      assert FirstApproval(reader, rows, name, 0);
    }
    assert FirstThrows(reader, rows, trxs, name, 0) <==> r.Failed?;
    if r.Ok? && HasTransaction(reader, trxs, name) {
      assert ShownAt(reader, rows, trxs, proposer, 0, r.proposals[0]);
    }
  }

  lemma {:induction false} FirstMeaning(reader: Reader, rows: seq<KvRow>, trxs: seq<KvRow>, proposer: Name, name: Name)
    ensures RightFirst(reader, rows, trxs, proposer, name, FirstNamed(reader, rows, trxs, proposer, name))
  {
    if rows == [] {
    } else {
      hide RightFirst;
      if OtherApproval(reader, rows[0], name) {
        FirstMeaning(reader, rows[1..], trxs, proposer, name);
        FirstLater(reader, rows, trxs, proposer, name, FirstNamed(reader, rows[1..], trxs, proposer, name));
      } else {
        FirstHere(reader, rows, trxs, proposer, name);
      }
    }
  }

  /** A right answer for SQL row `k`, over the contract's tables in the scope of its proposer. */
  ghost predicate RightFor(reader: Reader, chain: Chain, k: Statements.ProposalKey, r: Reply) {
    RightFirst(reader, ContractRows(chain, "eosio.msig", k.proposer, "approvals"),
               ContractRows(chain, "eosio.msig", k.proposer, "proposal"), k.proposer, k.name, r)
  }

  /** A right answer to `get_pending_proposals`: right answers for the SQL rows one after the other, failing if one
      of them does. */
  ghost predicate RightPending(reader: Reader, chain: Chain, keys: seq<Statements.ProposalKey>, r: Reply) {
    exists parts :: AreParts(reader, chain, keys, parts) && r == Together(parts)
  }

  ghost predicate AreParts(reader: Reader, chain: Chain, keys: seq<Statements.ProposalKey>, parts: seq<Reply>) {
    |parts| == |keys| && forall i :: 0 <= i < |keys| ==> RightFor(reader, chain, keys[i], parts[i])
  }

  /** Failed if one of them is, otherwise all proposals in order. */
  function Together(parts: seq<Reply>): Reply {
    if parts == [] then Ok([])
    else if parts[0].Failed? then Failed
    else Join(parts[0].proposals, Together(parts[1..]))
  }

  lemma {:induction false} PendingMeaning(reader: Reader, chain: Chain, keys: seq<Statements.ProposalKey>)
    ensures RightPending(reader, chain, keys, PendingReply(reader, chain, keys))
  {
    hide RightFor, FirstReply;
    if keys == [] {
      assert AreParts(reader, chain, keys, []) && Together([]) == Ok([]);
    } else {
      var k, rest := keys[0], keys[1..];
      FirstReplyIsRight(reader, chain, k);
      PendingMeaning(reader, chain, rest);
      var later :| AreParts(reader, chain, rest, later) && PendingReply(reader, chain, rest) == Together(later);
      var parts := [FirstReply(reader, chain, k)] + later;
      assert parts[1..] == later;
      forall i | 0 <= i < |keys| ensures RightFor(reader, chain, keys[i], parts[i]) {
        if i > 0 { assert rest[i - 1] == keys[i] && parts[i] == later[i - 1]; }
      }
      assert AreParts(reader, chain, keys, parts);
    }
  }

  lemma FirstReplyIsRight(reader: Reader, chain: Chain, k: Statements.ProposalKey)
    ensures RightFor(reader, chain, k, FirstReply(reader, chain, k))
  {
    hide RightFirst;
    var rows, trxs := TableRows(chain, k.proposer, "approvals"), TableRows(chain, k.proposer, "proposal");
    FirstMeaning(reader, rows, trxs, k.proposer, k.name);
  }

  // ---------------------------------------------------------------------------------------------
  // The loops, with the variable the callbacks share
  // ---------------------------------------------------------------------------------------------

  method RowsInScope(chain: Chain, scope: Name, table: Name) returns (rows: seq<KvRow>)
    requires Sorted(chain.index)
    ensures rows == TableRows(chain, scope, table)
  {
    var id := TableId(MSIG, scope, table);
    if id !in chain.tables {
      return [];
    }
    var tid := chain.tables[id];
    RangeIsTable(chain.index, tid);
    rows := chain.index[LowerBound(chain.index, tid)..LowerBound(chain.index, tid + 1)];
  }

  /** The callback on an approvals row: fills in the shared `pro`, walks the `proposal` table, and hands `pro`
      on when the transaction is found. Nothing of an earlier row survives in what is handed on. */
  method Visit(reader: Reader, trxs: seq<KvRow>, proposer: Name, a: Approval, before: Proposal)
      returns (pro: Proposal, found: bool, threw: bool)
    ensures Emit(reader, trxs, proposer, a) == if threw then Failed else Ok(if found then [pro] else [])
    ensures EmitRight(reader, trxs, proposer, a, if threw then Failed else Ok(if found then [pro] else []))
  {
    hide EmitRight;
    EmitMeaning(reader, trxs, proposer, a);
    pro := before.(proposer := proposer);
    pro := pro.(name := a.name);
    pro := pro.(transaction := "");
    pro := pro.(requested := a.requested);
    pro := pro.(provided := a.provided);
    found, threw := false, false;
    assert trxs[0..] == trxs;
    for i := 0 to |trxs|
      invariant !found && !threw
      invariant pro.proposer == proposer && pro.name == a.name
      invariant pro.requested == a.requested && pro.provided == a.provided
      invariant Emit(reader, trxs, proposer, a) == Emit(reader, trxs[i..], proposer, a)
    {
      assert trxs[i..][1..] == trxs[i + 1..];
      var row := reader.packed(trxs[i].value);
      if row.None? {
        threw := true;
        return;
      }
      if row.value.name == pro.name {
        var text := reader.render(row.value.blob);
        if text.None? {
          threw := true;
          return;
        }
        pro := pro.(transaction := text.value);
        pro := pro.(status := 0);
        var allowed := reader.authorize(row.value.blob, a.provided);
        if allowed.None? {
          threw := true;
          return;
        }
        if allowed.value {
          pro := pro.(status := 1);
        }
        found := true;
        return;
      }
    }
  }

  const BLANK := Proposal("", "", "", "", "", 0)

  method GetMyProposals(reader: Reader, chain: Chain, proposer: Name) returns (reply: Reply)
    requires Sorted(chain.index)
    ensures reply == MyReply(reader, chain, proposer)
    ensures RightReply(reader, ContractRows(chain, "eosio.msig", proposer, "approvals"),
                       ContractRows(chain, "eosio.msig", proposer, "proposal"), proposer, None, reply)
  {
    hide RightReply, Emit;
    MyReplyIsRight(reader, chain, proposer);
    var rows := RowsInScope(chain, proposer, "approvals");
    var trxs := RowsInScope(chain, proposer, "proposal");
    var result: seq<Proposal>, pro := [], BLANK;
    ghost var target := MyProposals(reader, rows, trxs, proposer);
    assert rows[0..] == rows;
    JoinNothing(target);
    for i := 0 to |rows|
      invariant target == Join(result, MyProposals(reader, rows[i..], trxs, proposer))
    {
      assert rows[i..][1..] == rows[i + 1..] && rows[i..][0] == rows[i];
      var a := reader.approval(rows[i].value);
      if a.None? {
        return Failed;
      }
      var found, threw;
      pro, found, threw := Visit(reader, trxs, proposer, a.value, pro);
      if threw {
        return Failed;
      }
      JoinTwice(result, if found then [pro] else [], MyProposals(reader, rows[i + 1..], trxs, proposer));
      result := result + if found then [pro] else [];
    }
    reply := Ok(result);
  }

  method GetPendingProposal(reader: Reader, chain: Chain, proposer: Name, name: Name) returns (reply: Reply)
    requires Sorted(chain.index)
    ensures reply == NamedReply(reader, chain, Statements.ProposalKey(proposer, name))
    ensures RightReply(reader, ContractRows(chain, "eosio.msig", proposer, "approvals"),
                       ContractRows(chain, "eosio.msig", proposer, "proposal"), proposer, Some(name), reply)
  {
    hide RightReply, Emit;
    NamedReplyIsRight(reader, chain, proposer, name);
    var rows := RowsInScope(chain, proposer, "approvals");
    var trxs := RowsInScope(chain, proposer, "proposal");
    var result: seq<Proposal>, pro := [], BLANK;
    ghost var target := ProposalsNamed(reader, rows, trxs, proposer, name);
    assert rows[0..] == rows;
    JoinNothing(target);
    for i := 0 to |rows|
      invariant target == Join(result, ProposalsNamed(reader, rows[i..], trxs, proposer, name))
    {
      assert rows[i..][1..] == rows[i + 1..] && rows[i..][0] == rows[i];
      var a := reader.approval(rows[i].value);
      if a.None? {
        return Failed;
      }
      if a.value.name == name {
        var found, threw;
        pro, found, threw := Visit(reader, trxs, proposer, a.value, pro);
        if threw {
          return Failed;
        }
        JoinTwice(result, if found then [pro] else [], ProposalsNamed(reader, rows[i + 1..], trxs, proposer, name));
        result := result + if found then [pro] else [];
      }
    }
    reply := Ok(result);
  }

  /** One SQL row of `get_pending_proposals`. */
  method FirstPending(reader: Reader, chain: Chain, k: Statements.ProposalKey) returns (reply: Reply)
    requires Sorted(chain.index)
    ensures reply == FirstReply(reader, chain, k)
  {
    var rows := RowsInScope(chain, k.proposer, "approvals");
    var trxs := RowsInScope(chain, k.proposer, "proposal");
    assert rows[0..] == rows;
    for i := 0 to |rows|
      invariant FirstNamed(reader, rows, trxs, k.proposer, k.name)
                == FirstNamed(reader, rows[i..], trxs, k.proposer, k.name)
    {
      assert rows[i..][1..] == rows[i + 1..] && rows[i..][0] == rows[i];
      var a := reader.approval(rows[i].value);
      if a.None? {
        return Failed;
      }
      if a.value.name == k.name {
        var pro, found, threw := Visit(reader, trxs, k.proposer, a.value, BLANK);
        return if threw then Failed else Ok(if found then [pro] else []);
      }
    }
    reply := Ok([]);
  }

  /** `get_pending_proposals`: the SQL search, and then a look at the chain for each of its rows. */
  method GetPendingProposals(reader: Reader, chain: Chain, sql: Table<Statements.ProposalKey, string>, account: Name)
      returns (reply: Reply)
    requires Sorted(chain.index)
    ensures reply == PendingReply(reader, chain, Awaiting(sql.rows, account))
    ensures RightPending(reader, chain, Awaiting(sql.rows, account), reply)
  {
    hide RightPending, Awaiting, FirstReply;
    PendingMeaning(reader, chain, Awaiting(sql.rows, account));
    var keys := Awaiting(sql.rows, account);
    var result: seq<Proposal> := [];
    assert keys[0..] == keys;
    JoinNothing(PendingReply(reader, chain, keys));
    for i := 0 to |keys|
      invariant PendingReply(reader, chain, keys) == Join(result, PendingReply(reader, chain, keys[i..]))
    {
      assert keys[i..][1..] == keys[i + 1..] && keys[i..][0] == keys[i];
      var one := FirstPending(reader, chain, keys[i]);
      if one.Failed? {
        return Failed;
      }
      JoinTwice(result, one.proposals, PendingReply(reader, chain, keys[i + 1..]));
      result := result + one.proposals;
    }
    reply := Ok(result);
  }

  lemma JoinTwice(xs: seq<Proposal>, ys: seq<Proposal>, r: Reply)
    ensures Join(xs, Join(ys, r)) == Join(xs + ys, r)
  {
    if r.Ok? {
      assert xs + (ys + r.proposals) == xs + ys + r.proposals;
    }
  }

  // ---------------------------------------------------------------------------------------------
  // The queries agree
  // ---------------------------------------------------------------------------------------------

  function Named(xs: seq<Proposal>, name: Name): seq<Proposal> {
    if xs == [] then [] else (if xs[0].name == name then [xs[0]] else []) + Named(xs[1..], name)
  }

  lemma {:induction false} NamedConcat(xs: seq<Proposal>, ys: seq<Proposal>, name: Name)
    ensures Named(xs + ys, name) == Named(xs, name) + Named(ys, name)
  {
    if xs == [] {
      assert xs + ys == ys;
      assert [] + Named(ys, name) == Named(ys, name);
    } else {
      var head := if xs[0].name == name then [xs[0]] else [];
      assert (xs + ys)[1..] == xs[1..] + ys;
      NamedConcat(xs[1..], ys, name);
      assert head + (Named(xs[1..], name) + Named(ys, name)) == head + Named(xs[1..], name) + Named(ys, name);
    }
  }

  lemma {:induction false} EmitsOwnName(reader: Reader, trxs: seq<KvRow>, proposer: Name, a: Approval, name: Name)
    ensures var r := Emit(reader, trxs, proposer, a);
            r.Ok? ==> |r.proposals| <= 1 && Named(r.proposals, name) == if a.name == name then r.proposals else []
  {
    if trxs != [] {
      EmitsOwnName(reader, trxs[1..], proposer, a, name);
    }
  }

  lemma {:induction false} NamedIsRestriction(reader: Reader, rows: seq<KvRow>, trxs: seq<KvRow>, proposer: Name,
                                              name: Name)
    requires MyProposals(reader, rows, trxs, proposer).Ok?
    ensures ProposalsNamed(reader, rows, trxs, proposer, name)
            == Ok(Named(MyProposals(reader, rows, trxs, proposer).proposals, name))
  {
    if rows != [] {
      var a := reader.approval(rows[0].value).value;
      var xs := Emit(reader, trxs, proposer, a).proposals;
      var ys := MyProposals(reader, rows[1..], trxs, proposer).proposals;
      NamedIsRestriction(reader, rows[1..], trxs, proposer, name);
      EmitsOwnName(reader, trxs, proposer, a, name);
      NamedConcat(xs, ys, name);
      assert [] + Named(ys, name) == Named(ys, name);
    }
  }

  /** Whenever an account's own proposals can be listed, asking for one of them by name gives exactly those
      of that name. */
  lemma PendingProposalIsMyProposalsByName(reader: Reader, chain: Chain, proposer: Name, name: Name)
    requires MyReply(reader, chain, proposer).Ok?
    ensures NamedReply(reader, chain, Statements.ProposalKey(proposer, name))
            == Ok(Named(MyReply(reader, chain, proposer).proposals, name))
  {
    var rows, trxs := TableRows(chain, proposer, "approvals"), TableRows(chain, proposer, "proposal");
    NamedIsRestriction(reader, rows, trxs, proposer, name);
  }

  predicate RowNamed(reader: Reader, row: KvRow, name: Name) {
    reader.approval(row.value).Some? && reader.approval(row.value).value.name == name
  }

  /** No two approvals rows of one scope read as the same proposal. */
  ghost predicate UniqueNames(reader: Reader, rows: seq<KvRow>) {
    forall i, j :: 0 <= i < j < |rows| && reader.approval(rows[i].value).Some? ==>
      !RowNamed(reader, rows[j], reader.approval(rows[i].value).value.name)
  }

  /** The multisig contract stores each approvals row under the number of its proposal name, so the scan
      meets no name twice. */
  lemma RowsKeyedByNameAreUnique(reader: Reader, chain: Chain, scope: Name, number: Name -> nat)
    requires Sorted(chain.index)
    requires forall row :: row in TableRows(chain, scope, "approvals") && reader.approval(row.value).Some? ==>
               row.primary == number(reader.approval(row.value).value.name)
    ensures UniqueNames(reader, TableRows(chain, scope, "approvals"))
  {
    var rows := TableRows(chain, scope, "approvals");
    var id := TableId(MSIG, scope, "approvals");
    if id in chain.tables {
      RowsKeepOrder(chain.index, chain.tables[id], rows);
    }
    forall i, j | 0 <= i < j < |rows| && reader.approval(rows[i].value).Some?
      ensures !RowNamed(reader, rows[j], reader.approval(rows[i].value).value.name)
    {
      assert rows[i] in rows && rows[j] in rows && rows[i].primary < rows[j].primary;
    }
  }

  lemma {:induction false} NoneNamed(reader: Reader, rows: seq<KvRow>, trxs: seq<KvRow>, proposer: Name, name: Name)
    requires forall i :: 0 <= i < |rows| ==> !RowNamed(reader, rows[i], name)
    ensures ProposalsNamed(reader, rows, trxs, proposer, name).Ok? ==>
              ProposalsNamed(reader, rows, trxs, proposer, name) == Ok([])
  {
    if rows != [] {
      assert !RowNamed(reader, rows[0], name);
      NoneNamed(reader, rows[1..], trxs, proposer, name);
    }
  }

  lemma {:induction false} FirstIsAll(reader: Reader, rows: seq<KvRow>, trxs: seq<KvRow>, proposer: Name, name: Name)
    requires UniqueNames(reader, rows)
    requires ProposalsNamed(reader, rows, trxs, proposer, name).Ok?
    ensures FirstNamed(reader, rows, trxs, proposer, name) == ProposalsNamed(reader, rows, trxs, proposer, name)
  {
    if rows != [] {
      var a := reader.approval(rows[0].value).value;
      if a.name == name {
        assert forall j :: 0 <= j < |rows[1..]| ==> rows[1..][j] == rows[j + 1];
        NoneNamed(reader, rows[1..], trxs, proposer, name);
        var xs := Emit(reader, trxs, proposer, a).proposals;
        assert xs + [] == xs;
      } else {
        FirstIsAll(reader, rows[1..], trxs, proposer, name);
      }
    }
  }

  /** The proposals by name of several SQL rows, one after the other. */
  function NamedReplies(reader: Reader, chain: Chain, keys: seq<Statements.ProposalKey>): seq<Proposal>
    requires forall i :: 0 <= i < |keys| ==> NamedReply(reader, chain, keys[i]).Ok?
  {
    if keys == [] then [] else NamedReply(reader, chain, keys[0]).proposals + NamedReplies(reader, chain, keys[1..])
  }

  /** The pending proposals are, SQL row by SQL row, what asking for each by name gives. */
  lemma {:induction false} PendingProposalsAreByName(reader: Reader, chain: Chain, keys: seq<Statements.ProposalKey>)
    requires forall i :: 0 <= i < |keys| ==> UniqueNames(reader, TableRows(chain, keys[i].proposer, "approvals"))
    requires forall i :: 0 <= i < |keys| ==> NamedReply(reader, chain, keys[i]).Ok?
    ensures PendingReply(reader, chain, keys) == Ok(NamedReplies(reader, chain, keys))
  {
    if keys != [] {
      var k := keys[0];
      assert NamedReply(reader, chain, keys[0]).Ok?;
      var rows, trxs := TableRows(chain, k.proposer, "approvals"), TableRows(chain, k.proposer, "proposal");
      FirstIsAll(reader, rows, trxs, k.proposer, k.name);
      PendingProposalsAreByName(reader, chain, keys[1..]);
    }
  }

  // ---------------------------------------------------------------------------------------------
  // The SQL side
  // ---------------------------------------------------------------------------------------------

  /** The keys of the proposals whose requested levels name the account, in id order. */
  function AskedOf(rows: seq<Row<Statements.ProposalKey, string>>,
                   levels: Statements.ProposalKey -> seq<PermissionLevel>, account: Name): seq<Statements.ProposalKey>
  {
    if rows == [] then []
    else
      (if Approvals.HasActor(levels(rows[0].key), account) then [rows[0].key] else [])
      + AskedOf(rows[1..], levels, account)
  }

  /** The search lists exactly the proposals that ask for the account's approval, in id order. */
  lemma {:induction false} AwaitingIsExact(rows: seq<Row<Statements.ProposalKey, string>>,
                                           levels: Statements.ProposalKey -> seq<PermissionLevel>, account: Name)
    requires Approvals.IsName(account)
    requires forall i :: 0 <= i < |rows| ==>
               Approvals.ValidLevels(levels(rows[i].key)) && rows[i].value == Approvals.PrintLevels(levels(rows[i].key))
    ensures Awaiting(rows, account) == AskedOf(rows, levels, account)
  {
    if rows != [] {
      Approvals.SearchIsExact(levels(rows[0].key), account);
      AwaitingIsExact(rows[1..], levels, account);
    }
  }

  lemma {:induction false} AwaitingMember(rows: seq<Row<Statements.ProposalKey, string>>, account: Name,
                                          k: Statements.ProposalKey)
    ensures k in Awaiting(rows, account) <==>
            exists a :: 0 <= a < |rows| && rows[a].key == k && Listed(rows[a].value, account)
  {
    if rows != [] {
      AwaitingMember(rows[1..], account, k);
      if a :| 0 <= a < |rows| && rows[a].key == k && Listed(rows[a].value, account) {
        if a > 0 { assert rows[1..][a - 1] == rows[a]; }
      }
      if a :| 0 <= a < |rows[1..]| && rows[1..][a].key == k && Listed(rows[1..][a].value, account) {
        assert rows[a + 1] == rows[1..][a];
      }
    }
  }
}
