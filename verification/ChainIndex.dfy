/**
 The sorted key-value index of the chain state and the prefix scan over it, `walk_key_value_table`.
 */
module ChainIndex {
  import opened Common
  import opened Traces

  datatype TableId = TableId(code: Name, scope: Name, table: Name)

  /** A row of a contract table: the number of its table, its primary key, its packed value. */
  datatype KvRow = KvRow(tid: nat, primary: nat, value: seq<Byte>)

  datatype Chain = Chain(tables: map<TableId, nat>, index: seq<KvRow>)

  /** The order of the `by_scope_primary` index. */
  ghost predicate Sorted(index: seq<KvRow>) {
    forall i, j :: 0 <= i < j < |index| ==>
      index[i].tid < index[j].tid || (index[i].tid == index[j].tid && index[i].primary < index[j].primary)
  }

  /** The first position whose table number is at least `tid`. */
  function LowerBound(index: seq<KvRow>, tid: nat): (i: nat)
    ensures i <= |index|
    ensures i < |index| ==> index[i].tid >= tid
    ensures forall j :: 0 <= j < i ==> index[j].tid < tid
  {
    if index == [] || index[0].tid >= tid then 0 else 1 + LowerBound(index[1..], tid)
  }

  /** The rows of one table, in index order. */
  function RowsOf(index: seq<KvRow>, tid: nat): seq<KvRow> {
    if index == [] then []
    else (if index[0].tid == tid then [index[0]] else []) + RowsOf(index[1..], tid)
  }

  lemma {:induction false} RowsConcat(xs: seq<KvRow>, ys: seq<KvRow>, tid: nat)
    ensures RowsOf(xs + ys, tid) == RowsOf(xs, tid) + RowsOf(ys, tid)
  {
    if xs == [] {
      assert xs + ys == ys;
    } else {
      HeadAndTail(xs, ys);
      RowsConcat(xs[1..], ys, tid);
      Associates(if xs[0].tid == tid then [xs[0]] else [], RowsOf(xs[1..], tid), RowsOf(ys, tid));
    }
  }

  lemma {:induction false} NoRows(xs: seq<KvRow>, tid: nat)
    requires forall i :: 0 <= i < |xs| ==> xs[i].tid != tid
    ensures RowsOf(xs, tid) == []
  {
    if xs != [] {
      NoRows(xs[1..], tid);
    }
  }

  lemma {:induction false} OnlyRows(xs: seq<KvRow>, tid: nat)
    requires forall i :: 0 <= i < |xs| ==> xs[i].tid == tid
    ensures RowsOf(xs, tid) == xs
  {
    if xs != [] {
      OnlyRows(xs[1..], tid);
    }
  }

  /** Rows before the lower bound have smaller table numbers, the others do not. */
  lemma BoundSplits(index: seq<KvRow>, tid: nat, j: nat)
    requires Sorted(index) && j < |index|
    ensures j < LowerBound(index, tid) <==> index[j].tid < tid
  {
    var lo := LowerBound(index, tid);
    if lo < j {
      assert index[lo].tid <= index[j].tid;
    }
  }

  lemma BoundsOrdered(index: seq<KvRow>, tid: nat)
    requires Sorted(index)
    ensures LowerBound(index, tid) <= LowerBound(index, tid + 1)
  {
    var hi := LowerBound(index, tid + 1);
    if hi < |index| {
      BoundSplits(index, tid, hi);
    }
  }

  lemma ThreePieces(before: seq<KvRow>, here: seq<KvRow>, behind: seq<KvRow>, tid: nat)
    requires forall x :: x in before || x in behind ==> x.tid != tid
    requires forall x :: x in here ==> x.tid == tid
    ensures RowsOf(before + (here + behind), tid) == here
  {
    NoRows(before, tid);
    OnlyRows(here, tid);
    NoRows(behind, tid);
    RowsConcat(here, behind, tid);
    RowsConcat(before, here + behind, tid);
    assert here + [] == here;
    assert [] + here == here;
  }

  lemma CutInThree(index: seq<KvRow>, lo: nat, hi: nat, tid: nat)
    requires lo <= hi <= |index|
    requires forall j :: 0 <= j < |index| ==> (index[j].tid == tid <==> lo <= j < hi)
    ensures index[lo..hi] == RowsOf(index, tid)
  {
    ThreePieces(index[..lo], index[lo..hi], index[hi..], tid);
    assert index[lo..hi] + index[hi..] == index[lo..];
    assert index[..lo] + index[lo..] == index;
  }

  /** The range between the two bounds is exactly the rows of the table, all of them and no others. */
  lemma RangeIsTable(index: seq<KvRow>, tid: nat)
    requires Sorted(index)
    ensures LowerBound(index, tid) <= LowerBound(index, tid + 1)
    ensures index[LowerBound(index, tid)..LowerBound(index, tid + 1)] == RowsOf(index, tid)
  {
    var lo, hi := LowerBound(index, tid), LowerBound(index, tid + 1);
    BoundsOrdered(index, tid);
    forall j | 0 <= j < |index| ensures index[j].tid == tid <==> lo <= j < hi {
      BoundSplits(index, tid, j);
      BoundSplits(index, tid + 1, j);
    }
    CutInThree(index, lo, hi, tid);
  }

  lemma SameTableOrder(index: seq<KvRow>, tid: nat, i: nat, j: nat)
    requires Sorted(index) && LowerBound(index, tid) <= i < j < LowerBound(index, tid + 1)
    ensures index[i].primary < index[j].primary
  {
    BoundSplits(index, tid, i);
    BoundSplits(index, tid, j);
    BoundSplits(index, tid + 1, i);
    BoundSplits(index, tid + 1, j);
  }

  lemma SliceKeepsOrder(index: seq<KvRow>, lo: nat, hi: nat)
    requires lo <= hi <= |index|
    requires forall i, j :: lo <= i < j < hi ==> index[i].primary < index[j].primary
    ensures forall i, j :: 0 <= i < j < hi - lo ==> index[lo..hi][i].primary < index[lo..hi][j].primary
  {
    var rows := index[lo..hi];
    assert forall i :: 0 <= i < |rows| ==> rows[i] == index[lo + i];
  }

  /** The rows of a table come in key order. */
  lemma RowsKeepOrder(index: seq<KvRow>, tid: nat, rows: seq<KvRow>)
    requires Sorted(index) && rows == RowsOf(index, tid)
    ensures forall i, j :: 0 <= i < j < |rows| ==> rows[i].primary < rows[j].primary
  {
    var lo, hi := LowerBound(index, tid), LowerBound(index, tid + 1);
    RangeIsTable(index, tid);
    forall i, j | lo <= i < j < hi ensures index[i].primary < index[j].primary {
      SameTableOrder(index, tid, i, j);
    }
    SliceKeepsOrder(index, lo, hi);
  }

  /** What a callback does on a row: go on, stop the walk, or throw out of it. */
  datatype Visit = Continue | Stop | Throw

  /** The rows a callback is called on: up to and including the first on which it does not go on. */
  function Visited(rows: seq<KvRow>, f: KvRow -> Visit): seq<KvRow> {
    if rows == [] then []
    else [rows[0]] + if f(rows[0]) == Continue then Visited(rows[1..], f) else []
  }

  /** What was visited is a beginning of the rows, all of which but the last were to go on, and the rest was left
      out only because the last was not. */
  ghost predicate VisitsRight(rows: seq<KvRow>, f: KvRow -> Visit, visited: seq<KvRow>) {
    && visited <= rows
    && (forall i :: 0 <= i < |visited| - 1 ==> f(rows[i]) == Continue)
    && (|visited| < |rows| ==> visited != [] && f(visited[|visited| - 1]) != Continue)
  }

  lemma {:induction false} VisitedMeaning(rows: seq<KvRow>, f: KvRow -> Visit)
    ensures VisitsRight(rows, f, Visited(rows, f))
  {
    if rows != [] {
      var rest := rows[1..];
      VisitedMeaning(rest, f);
      if f(rows[0]) == Continue {
        assert rows == [rows[0]] + rest;
        OneMoreVisit(rows[0], rest, f, Visited(rest, f));
      } else {
        assert Visited(rows, f) == [rows[0]];
      }
    }
  }

  lemma OneMoreVisit(row: KvRow, rest: seq<KvRow>, f: KvRow -> Visit, visited: seq<KvRow>)
    requires f(row) == Continue && VisitsRight(rest, f, visited)
    ensures VisitsRight([row] + rest, f, [row] + visited)
  {
    assert [row] + visited <= [row] + rest by {
      assert rest == visited + rest[|visited|..];
    }
  }

  lemma {:induction false} VisitedConcat(xs: seq<KvRow>, ys: seq<KvRow>, f: KvRow -> Visit)
    requires forall i :: 0 <= i < |xs| ==> f(xs[i]) == Continue
    ensures Visited(xs + ys, f) == xs + Visited(ys, f)
  {
    if xs == [] {
      assert xs + ys == ys;
    } else {
      HeadAndTail(xs, ys);
      HeadAndTail(xs, Visited(ys, f));
      VisitedConcat(xs[1..], ys, f);
    }
  }

  lemma VisitedStops(rows: seq<KvRow>, f: KvRow -> Visit)
    requires rows != [] && f(rows[0]) != Continue
    ensures Visited(rows, f) == [rows[0]]
  {
  }

  lemma VisitedUpTo(rows: seq<KvRow>, n: nat, f: KvRow -> Visit)
    requires n < |rows| && forall i :: 0 <= i < n ==> f(rows[i]) == Continue
    ensures f(rows[n]) != Continue ==> Visited(rows, f) == rows[..n + 1]
    ensures rows[..n + 1] == rows[..n] + [rows[n]]
  {
    hide Visited;
    assert rows == rows[..n] + rows[n..];
    VisitedConcat(rows[..n], rows[n..], f);
    if f(rows[n]) != Continue {
      VisitedStops(rows[n..], f);
    }
  }

  /** The loop over the range, with its early break. */
  method WalkRange(index: seq<KvRow>, lower: nat, upper: nat, f: KvRow -> Visit) returns (visited: seq<KvRow>)
    requires lower <= upper <= |index|
    ensures visited == Visited(index[lower..upper], f)
  {
    visited := [];
    ghost var rows := index[lower..upper];
    var itr := lower;
    while itr != upper
      invariant lower <= itr <= upper
      invariant visited == rows[..itr - lower]
      invariant forall i :: 0 <= i < itr - lower ==> f(rows[i]) == Continue
      decreases upper - itr
    {
      assert index[itr] == rows[itr - lower];
      VisitedUpTo(rows, itr - lower, f);
      visited := visited + [index[itr]];
      if f(index[itr]) != Continue {
        return;
      }
      itr := itr + 1;
    }
    VisitedConcat(rows, [], f);
    assert rows + [] == rows;
  }

  /** `walk_key_value_table`: the rows the callback was called on, in order; `found` is false when the
      table does not exist, and then the second callback runs instead. */
  method WalkKeyValueTable(chain: Chain, id: TableId, f: KvRow -> Visit) returns (found: bool, visited: seq<KvRow>)
    requires Sorted(chain.index)
    ensures found == (id in chain.tables)
    ensures visited == if found then Visited(RowsOf(chain.index, chain.tables[id]), f) else []
    ensures found ==> VisitsRight(RowsOf(chain.index, chain.tables[id]), f, visited)
  {
    found, visited := id in chain.tables, [];
    if found {
      var tid := chain.tables[id];
      RangeIsTable(chain.index, tid);
      VisitedMeaning(RowsOf(chain.index, tid), f);
      visited := WalkRange(chain.index, LowerBound(chain.index, tid), LowerBound(chain.index, tid + 1), f);
    }
  }
}
