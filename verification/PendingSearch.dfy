/**
 The SQL side of `get_pending_proposals` after a log of actions: which proposals the search over the printed
 approvals lists, said of the actions themselves.
 */
module PendingSearch {
  import opened ActionMeaning
  import opened ActionsTable
  import opened Common
  import opened Proposals
  import opened Statements
  import opened Tables
  import opened Traces
  import Approvals

  /** Compact JSON of some levels with proper names. */
  ghost predicate LevelsText(text: string) {
    exists ls :: Approvals.ValidLevels(ls) && text == Approvals.PrintLevels(ls)
  }

  /** What the search needs of the code that prints: each propose of the log that takes effect, read under the
      ABI in effect at its place, prints its requested levels so. */
  ghost predicate LogPrintsLevels(codec: Codec, s: Store, log: seq<Attempt>) {
    forall i: nat, k, text :: ProposesAt(codec, s, log, i, k, text) ==> LevelsText(text)
  }

  /** Sound tables with no proposals, as after the first start. */
  ghost predicate NoProposals(s: Store) {
    ValidStore(s) && s.proposals.rows == []
  }

  /** Action `i` proposes `k` and asks for the account's approval. */
  ghost predicate AsksAt(codec: Codec, s: Store, log: seq<Attempt>, i: nat, k: ProposalKey, account: Name) {
    exists ls: seq<PermissionLevel> ::
      && ProposesAt(codec, s, log, i, k, Approvals.PrintLevels(ls)) && Approvals.ValidLevels(ls)
      && exists j :: 0 <= j < |ls| && ls[j].actor == account
  }

  /** The last propose, cancel or exec of `k` to take effect is a propose that asks for the account's approval. */
  ghost predicate AsksFor(codec: Codec, s: Store, log: seq<Attempt>, k: ProposalKey, account: Name) {
    exists i: nat :: AsksAt(codec, s, log, i, k, account) && ProposalRestsAfter(codec, s, log, i, k)
  }

  /** A row that the search lists. */
  lemma ListedAsks(codec: Codec, s: Store, log: seq<Attempt>, account: Name, k: ProposalKey, text: string)
    requires NoProposals(s) && LogPrintsLevels(codec, s, log) && Approvals.IsName(account) && Listed(text, account)
    requires Get(Replay(codec, s, log).proposals, k) == Some(text)
    ensures AsksFor(codec, s, log, k, account)
  {
    hide Replay, ProposesAt, ProposalRestsAfter, Approvals.Like, Approvals.PrintLevels, Approvals.ValidLevels;
    ProposalByActions(codec, s, log, k, text);
    var i: nat :| ProposesAt(codec, s, log, i, k, text) && ProposalRestsAfter(codec, s, log, i, k);
    assert LevelsText(text);
    var ls :| Approvals.ValidLevels(ls) && text == Approvals.PrintLevels(ls);
    Approvals.SearchIsExact(ls, account);
    assert AsksAt(codec, s, log, i, k, account);
  }

  lemma AskedIsListed(codec: Codec, s: Store, log: seq<Attempt>, account: Name, k: ProposalKey) returns (text: string)
    requires NoProposals(s) && AsksFor(codec, s, log, k, account) && Approvals.IsName(account)
    ensures Get(Replay(codec, s, log).proposals, k) == Some(text) && Listed(text, account)
  {
    hide Replay, ProposesAt, ProposalRestsAfter, Approvals.Like, Approvals.PrintLevels, Approvals.ValidLevels;
    var i: nat :| AsksAt(codec, s, log, i, k, account) && ProposalRestsAfter(codec, s, log, i, k);
    var ls: seq<PermissionLevel> :|
      && ProposesAt(codec, s, log, i, k, Approvals.PrintLevels(ls)) && Approvals.ValidLevels(ls)
      && exists j :: 0 <= j < |ls| && ls[j].actor == account;
    text := Approvals.PrintLevels(ls);
    ProposalByActions(codec, s, log, k, text);
    Approvals.SearchIsExact(ls, account);
  }

  lemma AwaitingAsks(codec: Codec, s: Store, log: seq<Attempt>, account: Name, k: ProposalKey)
    requires NoProposals(s) && LogPrintsLevels(codec, s, log) && Approvals.IsName(account)
    ensures k in Awaiting(Replay(codec, s, log).proposals.rows, account) <==> AsksFor(codec, s, log, k, account)
  {
    hide Replay, AsksFor, Listed, Awaiting, LogPrintsLevels;
    var t := Replay(codec, s, log).proposals;
    ReplayKeepsValid(codec, s, log);
    AwaitingMember(t.rows, account, k);
    if a :| 0 <= a < |t.rows| && t.rows[a].key == k && Listed(t.rows[a].value, account) {
      FindUnique(t, a);
      ListedAsks(codec, s, log, account, k, t.rows[a].value);
    }
    if AsksFor(codec, s, log, k, account) {
      var text := AskedIsListed(codec, s, log, account, k);
      assert t.rows[Find(t.rows, k)].value == text;
    }
  }

  lemma {:induction false} AwaitingKeepsOrder(codec: Codec, s: Store, log: seq<Attempt>,
                                              rows: seq<Row<ProposalKey, string>>, account: Name,
                                              keys: seq<ProposalKey>)
    requires forall a, b :: 0 <= a < b < |rows| ==> MadeInOrder(codec, s, log, rows[a].key, rows[b].key)
    requires keys == Awaiting(rows, account)
    ensures forall a, b :: 0 <= a < b < |keys| ==> MadeInOrder(codec, s, log, keys[a], keys[b])
  {
    hide MadeInOrder, Listed;
    if rows != [] {
      var tail := rows[1..];
      var rest := Awaiting(tail, account);
      AwaitingKeepsOrder(codec, s, log, tail, account, rest);
      forall k | k in rest ensures MadeInOrder(codec, s, log, rows[0].key, k) {
        AwaitingMember(tail, account, k);
        var a :| 0 <= a < |tail| && tail[a].key == k && Listed(tail[a].value, account);
        assert rows[a + 1].key == k;
      }
      assert keys == if Listed(rows[0].value, account) then [rows[0].key] + rest else [] + rest;
    }
  }

  /** With no proposals to begin with, after any log of actions and with any statements failing, the search
      lists exactly the proposals whose last action asks for the account's approval, each once, in the order
      they were made. */
  lemma AwaitingAfterLog(codec: Codec, s: Store, log: seq<Attempt>, account: Name, keys: seq<ProposalKey>)
    requires NoProposals(s) && LogPrintsLevels(codec, s, log) && Approvals.IsName(account)
    requires keys == Awaiting(Replay(codec, s, log).proposals.rows, account)
    ensures forall k :: k in keys <==> AsksFor(codec, s, log, k, account)
    ensures forall a, b :: 0 <= a < b < |keys| ==> keys[a] != keys[b] && MadeInOrder(codec, s, log, keys[a], keys[b])
  {
    hide LogPrintsLevels, AsksFor, Awaiting, Replay, MadeInOrder;
    forall k ensures k in keys <==> AsksFor(codec, s, log, k, account) { AwaitingAsks(codec, s, log, account, k); }
    ProposalsInOrder(codec, s, log, Replay(codec, s, log).proposals.rows);
    AwaitingKeepsOrder(codec, s, log, Replay(codec, s, log).proposals.rows, account, keys);
    forall a, b | 0 <= a < b < |keys| ensures keys[a] != keys[b] { MadeOnce(codec, s, log, keys[a], keys[b]); }
  }

  lemma DroppedWider(codec: Codec, s: Store, log: seq<Attempt>, lo: int, hi: int, later: int, k: ProposalKey)
    requires hi <= later
    ensures DroppedBetween(codec, s, log, lo, hi, k) ==> DroppedBetween(codec, s, log, lo, later, k)
  {
    hide DropsAt;
  }

  /** A proposal cannot have been made before itself. */
  lemma MadeOnce(codec: Codec, s: Store, log: seq<Attempt>, j: ProposalKey, k: ProposalKey)
    requires MadeInOrder(codec, s, log, j, k)
    ensures j != k
  {
    hide MakesAt, DropsAt, DroppedBetween;
    var a: nat, b: nat :| a < b && MadeAt(codec, s, log, a, j) && MadeAt(codec, s, log, b, k);
    InLog(codec, s, log, b, k);
    DroppedWider(codec, s, log, a, b, |log|, k);
  }

  lemma InLog(codec: Codec, s: Store, log: seq<Attempt>, i: nat, k: ProposalKey)
    requires MakesAt(codec, s, log, i, k)
    ensures i < |log|
  {
  }
}
